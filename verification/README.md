# Phylaxis: a verified model of its graph and state algorithms

Phylaxis reads a Python source distribution without executing it and reports, with evidence, what
the package could do when it is installed, imported or used. Its verdicts rest on a few algorithms
over graphs and stored state. This project models those and proves what they are for. `dafny verify
dfyconfig.toml` checks all of it.

The modules, bottom up:

- `Walks`, `Sums`, `Counting`, `Finite`, `Shortlex`, `Mediation` hold the vocabulary: walks and
  reachability over a finite relation, exact sums, sets of walks and their sizes, node sequences
  ordered by length and then lexicographically, and edges replaced by two-step detours. `Digraph`
  and `Evidence` are the multigraph and the paths, steps and confidences everything shares.
- `Dependencies`, `Brandes`, `Betweenness` rank the packages of a requirement graph. `Brandes` is
  the mathematics, from path counts to the definition of betweenness by sets of shortest paths;
  `Betweenness` is the algorithm, with its queue, stack and arrays of counts.
- `Search`, `Shortest`, `Pruning`, `DataPaths`, `ViaPaths`, `ControlPaths`, `ConstantWalk` are the
  bounded searches that turn graphs into evidence.
- `Calls`, `Hubs`, `HubWiring`, `HubTheorem` wire calls to their candidate callees, wide ones
  through shared hubs. `FanOut`, `FanOutTheorem`, `Phases`, `FanOutPhases` do the same in the call
  graph and spread execution phases over it; `CallEdges` says which calls the graph then has.
- `FlowSyntax`, `FlowWalker`, `FlowGraph` build the flow-insensitive data-flow graph of a core
  language; `FlowRuns` gives that language runs in which every value carries the syntax nodes it
  passed through, names imported are the variables they are imported from, methods are bound and
  starred parameters filled as the language does, and objects that are made carry what their
  initialiser put into them; `FlowFits`, `FlowRecord`, `FlowCarried`, `FlowActuals`, `FlowSoundness`
  and `FlowTheorem` prove the graph sound for those runs; `FlowGaps` (stores), `FlowImports` (names
  imported), `FlowLost` (starred parameters), `FlowOffsets` (calls of methods) and `FlowObjects`
  (objects made) show exactly where it is not, with `FlowNoPath` for showing that there is no path.
  The converse is `FlowLinks`, `FlowEvents` and `FlowConverse`: the graph has no link but those along
  which the program hands a value on; and `FlowPassed`, in runs, that what an expression hands on is
  passed.
- `Lowering` and `LoweredNodes` go from a parsed tree to an arena, `SymbolTable`, `DefinitionScopes`
  and `SymbolContents` from there to symbols.
- `CacheKeys`, `Retention`, `ResultCache`, `ScanRuns` are the result cache and its use by batches
  of concurrent scans; `SweepTheorem` is what a sweep keeps and removes, in days and bytes.
- `Literals`, `Decoders`, `Fold` read string literals and fold literal-only expressions to bytes, and
  `FoldChains` says how the list of decoders is to be read; `PythonLiterals`, `PythonDecoders`,
  `Texts`, `FoldMeaning` say what Python makes of literals, decoders, codecs and whole expressions,
  in characters, and where the bytes are those of the meaning; `FoldExtent` which of them are folded
  at all, and `FoldMisread` what is folded otherwise. `Findings`, `RuleEngine` score evidence and
  evaluate rules.

What the project found to be false of the code, each with a witness and the exact condition under
which the property holds:

- A store into a variable of an enclosing scope is recorded as a definition in the storing scope, and
  so is every other name in what is stored into, as the `g` and `x` of `g(x)[0] = 1`. A read is
  resolved to the scope where a run finds the name exactly when the nearest scope that binds the name
  or has it in such a store also binds it (`FlowGaps.ReadFindsItsScopeIff`); elsewhere flows are
  missed (`FlowGaps.StoreOutsideIsMissed`).
- A name that its file imports is never read: what a module of the package keeps under a name that
  another imports, or what a parameter of such a name is passed, goes no further. A run has no
  variable to read there exactly when no scope that binds the name comes first and no module of the
  package binds what it is imported from (`FlowImports.ImportedReadIff`); otherwise flows are missed
  (`FlowImports.ImportIsMissed`, `FlowLost.ActualIsLost`).
- A starred parameter is wired as if it took one actual: every actual is wired to all it may be bound
  to exactly when none is left over for a starred parameter (`FlowLost.ActualsWiredIff`); what is left over is
  lost (`FlowLost.ActualIsLost`).
- Whether a method call skips the first parameter is decided by the method's being in a class and by
  the receiver's leaving a node, whatever its decoration and whether it is called on its class. The
  actuals land where Python binds them exactly when the call lines up with the method
  (`FlowOffsets.ActualsLandIff`, `FlowOffsets.SentIsFoundIff`): calls of static methods through an
  attribute, of methods on their class and of methods on a number do not, and lose flows
  (`FlowOffsets.StaticCallIsMissed`, `FlowOffsets.UnboundAndNumberCallsAreMissed`).
- What an initialiser puts into the object it makes does not come out with the object
  (`FlowObjects.OnlyReturnsComeOut`). The object holds something exactly when some store goes into
  the initialiser's first parameter (`FlowObjects.ObjectHoldsIff`), and then a flow is missed
  (`FlowObjects.MadeIsMissedIff`).
- The comment on the hub pass promises unchanged reachability. It holds when the keywords of wide
  calls each name one parameter (`HubTheorem.HubsKeepReachability`), which is when the formals agree
  (`HubTheorem.FilledFormalsAgreeIff`); a keyword that names two reaches more through a hub
  (`HubTheorem.HubsReachMore`). Python itself rejects such callees.
- A report carries its file's name, but the cache key is the digest of the bytes: a file is served a
  fresh report exactly when its name is that of the file the entry was made from
  (`ScanRuns.RenamedIsServedTheOldName`, `ScanRuns.ScanRenamed`).
- The folder works on bytes, knows a handful of escapes, takes what stands between a literal's first
  quotes and its last for the literal, drops padding wherever it stands, and reads every operator on
  an integer but `-` as none. Each kind of node that gives a text or bytes in Python has the exact
  condition under which it is folded to what it means: literals (`PythonLiterals.LiteralReadIff`,
  `FoldMeaning.LiteralRightIff`), decoders (`PythonDecoders.Base64Iff`, `UnhexlifyIff`, `Base16Iff`,
  `FromHexIff`, `FoldMeaning.DecodeRightIff`), and the others (`FoldMeaning.OperandReadIff`,
  `RepeatRightIff`, `ChrRightIff`, `TextOfIff`, `TurnedIff`, `Texts.CodecIff`). Where all hold the
  fold is the meaning (`FoldMeaning.FoldMeans`), and is given exactly within the bounds and where no
  count is negative and decoders are given what they take (`FoldExtent.ResultIs`). `FoldMisread` has octal escapes, literals side by
  side, formatted ones among them, accented letters reversed, counts like `~5`, operators on texts,
  and Base64 without padding or with padding inside, all folded to what Python does not give.
- `stats` counts as stale only entries of another schema, while the sweep also removes those of
  another ruleset. The two agree exactly when every entry of the current schema has the current
  ruleset (`Retention.StatsAgreeIff`); one entry of an older ruleset tells them apart
  (`Retention.OldRulesetIsNotCounted`).

Scores, counts and betweenness are over `real`. A method that the source implements by updating
state in place is a method here, proved against a specification function or predicate; the lemmas in
the table are about those specifications.

## Model

| member | source | states |
|---|---|---|
| `Dependencies.FromRequirements` | crates/core/src/deps.rs:57-85 | For packages with distinct names, the graph has one node per package, found by name, and an edge exactly where a package requires another package of the set: no self loop, no parallel edge, the edge marked by the first requirement that names its target |
| `Betweenness.CountShortestPaths` | crates/core/src/deps.rs:126-142 | One forward pass leaves a visiting order that is every reached node once, level by level; distances that no edge of a reached node can shorten; and for each node exactly the predecessors one level up, with `sigma` their sum |
| `Brandes.LevelIsDistance` | crates/core/src/deps.rs:130-140 | A distance array that the forward pass can leave is the length of a shortest path to every node, -1 exactly where there is no path |
| `Betweenness.SigmaCounts` | crates/core/src/deps.rs:128-140 | `sigma[w]` is the number of walks of shortest length from the source to `w`, counted as a set of node sequences; this is where a graph without parallel edges is needed |
| `Counting.WalkSetIff` | crates/core/src/deps.rs:126-140 | The set that is counted holds exactly the walks of that many edges between the two nodes |
| `Counting.ShortestPathsAreShortest` | crates/core/src/deps.rs:126-140 | The shortest paths of a pair are exactly the walks that no walk of the pair is shorter than |
| `Counting.CountFirstStep` | crates/core/src/deps.rs:143-152 | The number of walks of a given length can be split by their first edge instead of their last: what turns forward counts into backward sums |
| `Counting.ThroughCount` | crates/core/src/deps.rs:143-152 | The shortest paths of a pair that pass through `v` number the shortest paths to `v` times the walks that make up the difference, zero when `v` lies too far |
| `Brandes.Recurrence` | crates/core/src/deps.rs:143-152 | Brandes' recurrence: the dependency of a source on `v` is the sum, over the nodes one level below `v`, of path-count ratio times one plus their dependency |
| `Brandes.ShareIsPairShare` | crates/core/src/deps.rs:143-152 | The share computed from levels and counts is the fraction of the pair's shortest paths, as sets, that pass through `v` |
| `Brandes.DependIsPairShares` | crates/core/src/deps.rs:143-152 | The dependency on `v` is the sum of its pair shares over every target other than `v` and the source |
| `Betweenness.Accumulate` | crates/core/src/deps.rs:143-152 | Popping the visiting order backwards adds to each node's score exactly the source's dependency on it, and nothing to the source's own |
| `Brandes.CentralityRange` | crates/core/src/deps.rs:154-159 | For every graph, the sum over ordered pairs of shares, divided by (n-1)(n-2) when n > 2, lies in [0, 1] |
| `Betweenness.Betweenness` | crates/core/src/deps.rs:118-161 | No answer exactly above 5000 nodes; otherwise each node's value is its betweenness, defined from sets of shortest paths without any reference to the algorithm, and lies in [0, 1] |
| `Dependencies.TransitiveDependents` | crates/core/src/deps.rs:93-109 | No answer exactly for unknown packages; otherwise the number of other nodes from which the package can be reached, on every graph including cyclic ones |
| `Dependencies.InDegree` | crates/core/src/deps.rs:165-187 | Without parallel edges, incoming edges number the direct dependents |
| `Dependencies.DependentsBounds` | crates/core/src/deps.rs:165-187 | Direct dependents are among the transitive ones, and those are at most all other packages: the share cannot exceed 1 |
| `Dependencies.BlastRadiusOf` | crates/core/src/deps.rs:165-187 | The record states the true numbers of direct and transitive dependents, their share of the other packages in [0, 1] (0 for a lone package) and the betweenness given |
| `Search.FollowStep` | crates/graph/src/reach.rs:918-934 | Following one more outgoing edge of the node being expanded keeps the search right: nodes in least-path order, parents the first edge of the least path, everything nearer found |
| `Search.Bfs` | crates/graph/src/reach.rs:910-936 | After the bounded search over the permitted nodes, the parents are those of a state in which every found node carries its least path and every node within the bound is found; no parents at all from an unknown start |
| `Shortest.FoundExactly` | crates/graph/src/reach.rs:910-936 | The search finds exactly the nodes within the bound, each by the path that no other path is shorter than or, at its length, lexicographically before |
| `Shortest.WalkBack` | crates/graph/src/reach.rs:940-955 | Walking parents back ends, and gives a path exactly when the goal is within the bound; that path is the least one, spelled in the first of any parallel edges, and no longer than the bound |
| `Shortest.LeastEdgesUnique` | crates/graph/src/reach.rs:910-955 | At most one edge sequence meets that description, so the answer does not depend on edge insertion order beyond parallel edges |
| `Pruning.CanReach` | crates/graph/src/reach.rs:812-834 | A node is flagged exactly when one of the goals that exist can be reached from it |
| `Pruning.PrunedIsUnpruned` | crates/graph/src/reach.rs:766-807 | At a flagged node, the graph restricted to flagged nodes has the same bounded reachability and the same least edge sequences as the whole graph |
| `Pruning.PruningChangesNothing` | crates/graph/src/reach.rs:766-807 | The searches with and without pruning give every flagged node the same parent edge and the same path, and pruned nodes other than the start no parent: pruning changes no path |
| `DataPaths.DataPath` | crates/graph/src/reach.rs:958-1021 | The typed path along an edge sequence is a data path, as confident as its weakest edge, obfuscated exactly when the source is a decoded literal or some edge an obfuscating transform, conditional exactly when the sink is; it starts with the source's step, ends with the sink's, and has between them one step per edge but the last, of the kind the edge's kind says, at the node it enters |
| `DataPaths.ShownOnce` | crates/graph/src/reach.rs:958-1021 | Those statements leave nothing open: two paths that meet them are the same |
| `DataPaths.Decided` | crates/graph/src/reach.rs:758-807 | What the pruned search says of a sink is whether the sink is within the bound of the source in the whole graph |
| `DataPaths.DataPathsTo` | crates/graph/src/reach.rs:749-808 | The answer is, in source order then sink order, exactly the pairs within the bound whose source is no phase root, each once, each with a path of the content stated for DataPath along its least edges |
| `ViaPaths.Join` | crates/graph/src/reach.rs:1068-1086 | Joining two well-formed legs keeps the steps of both but the first leg's sink, which becomes a transfer step at the seam; the path is no more confident than either leg and as confident as one of them |
| `ViaPaths.JoinShows` | crates/graph/src/reach.rs:1058-1086 | Joined, the legs are a data path from source to sink: as confident as the weakest edge of both, obfuscated when the source is decoded or some edge of either obfuscates, conditional when the write or the sink is, the steps of both legs by edge kind around the one that says what was written to a file |
| `ViaPaths.CarriedIsConnected` | crates/graph/src/reach.rs:1031-1090 | Being carried by two search legs, as the loops find it, is the same as: some write node with a call-graph owner is within the bound of a source that is not a phase root, and the sink is within the bound of that node |
| `ViaPaths.DataPathsVia` | crates/graph/src/reach.rs:1031-1090 | One path per sink, in sink order, for exactly the sinks connected through a write; each is well formed and shows, as just stated, the least legs through the first write that serves the sink |
| `ControlPaths.ControlPath` | crates/graph/src/reach.rs:866-903 | The control path along an edge sequence is a control path, neither obfuscated nor conditional, with the root's step, one call step per edge at the call and named after what is called, the sink's step, and the confidence of the weakest call |
| `ControlPaths.ControlPathsOf` | crates/graph/src/reach.rs:839-905 | From a root with a node, in sink order, exactly the sinks whose definition is within the bound, each by a path of that content along its least calls; nothing from a root without a node |
| `ConstantWalk.WalkDone` | crates/graph/src/reach.rs:233-259 | When the backward worklist runs dry, what was seen is the backward closure and a leaf was counted exactly when the closure starts at constants |
| `ConstantWalk.BadLeaf` | crates/graph/src/reach.rs:243-252 | Meeting one leaf that is not a constant settles the question for the whole closure, however much of it is unseen |
| `ConstantWalk.IsDecodedConstant` | crates/graph/src/reach.rs:233-259 | Yes exactly when the backward closure has a leaf, every leaf is a literal or a definition other than the start, and the closure has at most 4096 nodes; on every graph including cyclic ones |
| `HubWiring.Walker.HubFor` | crates/graph/src/dataflow.rs:1809-1867 | One hub per slot and target set, created on first use together with the links of its callee side and shared by every later call of the same key; hubs made earlier keep their nodes |
| `HubWiring.Walker.Fill` | crates/graph/src/dataflow.rs:1750-1805 | Links every actual of a slot into that slot's hub and nothing else |
| `HubWiring.Walker.WireWide` | crates/graph/src/dataflow.rs:1750-1805 | A wide call links each of its slots' actuals into the slot's hub and the return hub into its result, and nothing else |
| `HubWiring.Walker.WireNarrow` | crates/graph/src/dataflow.rs:1882-1923 | A narrow call adds exactly the links from actuals to the formals that bind them and from returns to the result, for every target |
| `HubWiring.Walker.ResolvePackageCalls` | crates/graph/src/dataflow.rs:1750-1783 | After all pending calls, what was linked is exactly what the narrow calls wire and what the wide calls put into and take out of hubs |
| `HubTheorem.Wire` | crates/graph/src/dataflow.rs:1750-1783 | Wiring any list of scoped calls onto any base graph gives a graph on which the theorems below hold |
| `HubTheorem.ThroughHub` | crates/graph/src/dataflow.rs:1809-1867 | Every two links that meet in a hub stand for a link of the direct wiring at the confidence of one of the two |
| `HubTheorem.HubsKeepReachability` | crates/graph/src/dataflow.rs:1745-1867 | At every confidence level original nodes reach each other in the hub graph exactly when they do under direct wiring, provided the keywords that wide calls pass each name at most one parameter of each target |
| `HubTheorem.HubsLoseNothing` | crates/graph/src/dataflow.rs:1745-1867 | Without any assumption on names, hubs lose no reachability at any confidence level |
| `Calls.FormalsAgreeIff` | crates/graph/src/dataflow.rs:1809-1923 | Hub and direct wiring pick the same formals for a slot of a callee exactly unless the slot is a keyword that names two different parameters: hubs take every parameter of that name, direct wiring the first |
| `HubTheorem.FilledFormalsAgreeIff` | crates/graph/src/dataflow.rs:1750-1923 | In every wiring, the formals that the values of wide calls land in are the same through hubs as directly exactly when the keywords those calls pass each name at most one parameter of each target |
| `HubTheorem.HubsReachMore` | crates/graph/src/dataflow.rs:1745-1867 | Otherwise reachability does change: a wide call whose keyword names two parameters reaches the second through its hub and not directly |
| `Mediation.SameReach` | crates/graph/src/dataflow.rs:1745-1749 | When every edge of one relation is an edge or a two-step detour of another, and every detour through an added node is an edge, original nodes reach the same nodes |
| `FanOut.CandidateSet` | crates/graph/src/callgraph.rs:485-488 | The distinct call targets of a candidate list, classes replaced by their initialiser, in ascending order |
| `FanOut.NumberSets` | crates/graph/src/callgraph.rs:385-401 | Exactly the candidate sets that some site makes and that are wider than the limit get a node of their own, one each |
| `FanOut.BuildEdges` | crates/graph/src/callgraph.rs:385-472 | An error exactly when a site's owner has no node; otherwise the edges are those of the fan-out nodes and those of the sites |
| `CallEdges.CallsIff` | crates/graph/src/callgraph.rs:385-472 | Of every build, fan-outs expanded: a node makes a call of a site to another node at a confidence exactly when it is the node of the site's owner and the other is that of the definition the site was resolved to, or of its initialiser when it has one, at Resolved; of some candidate so replaced or of the unknown receiver, at Ambiguous; of the external name, at Resolved; or of the unresolved one, at Dynamic |
| `CallEdges.FanOutIff` | crates/graph/src/callgraph.rs:385-401 | From a fan-out node edges lead to exactly the symbols of its set that have nodes, each at Ambiguous and placed at the symbol's own definition; its set is that of some call resolved by name alone to more than eight |
| `FanOutTheorem.TargetsOfSites` | crates/graph/src/dataflow.rs:287-309 | The map holds for every site exactly the targets its edges lead to, an edge to a fan-out giving each of the fan-out's candidates at the lesser confidence |
| `FanOutTheorem.ExpansionIsDirect` | crates/graph/src/dataflow.rs:287-309 | For every site, expanding the fan-outs gives exactly the targets and confidences the direct edges give |
| `FanOutTheorem.SameReach` | crates/graph/src/callgraph.rs:385-472 | Every ordinary node reaches the same ordinary nodes with and without fan-outs |
| `FanOutTheorem.FewEdges` | crates/graph/src/callgraph.rs:474-481 | The edges of wide sites and fan-outs number at most two per wide site plus the sizes of the distinct candidate sets |
| `FanOutPhases.PhasesUnchanged` | crates/graph/src/phases.rs:195-222 | With roots among the ordinary symbols, every ordinary symbol has the same phase with and without fan-out nodes |
| `Phases.CallNodes.AddNode` | crates/core/src/graphs.rs:94-102 | A symbol already present keeps its node, a new one gets the next; the two indexes stay inverse to each other |
| `Phases.PhaseMap.Strengthen` | crates/core/src/taxonomy.rs:87-92 | Raises one symbol to the stronger of its phase and the one given, and changes no other |
| `Phases.PhaseMap.Spread` | crates/graph/src/phases.rs:195-222 | One walk raises exactly the symbols the root reaches, and ends on every graph |
| `Phases.PhaseMap.Build` | crates/graph/src/phases.rs:183-225 | Each symbol a root reaches has the strongest phase of the roots that reach it, all others are absent and so `Runtime` |
| `Phases.NextRoot` | crates/graph/src/phases.rs:188-222 | Raising what one more root reaches gives the phase map of one more root |
| `Phases.LeastAboveRoots` | crates/graph/src/phases.rs:183-225 | The phase map is above every root's phase, closed under calls, and below every map that is |
| `Phases.RootOrderIrrelevant` | crates/graph/src/phases.rs:183-225 | Two root lists with the same members give the same map, whatever their order and repetitions |
| `FlowSyntax.NodesApart` | crates/graph/src/dataflow.rs:424-443 | Different syntax nodes, roles and walks have different graph nodes |
| `FlowWalker.Walker.Eval` | crates/graph/src/dataflow.rs:592-708 | Returns the nodes that carry the expression's value and records exactly what evaluating it records, nested calls included; a name imported in its file, and a dotted name that starts with one, is a use of its own and no read |
| `FlowWalker.Walker.EvalCall` | crates/graph/src/dataflow.rs:742-993 | Records receiver, arguments, external formals with their transform and drop rules, and one pending call for the resolved package targets |
| `FlowWalker.Walker.BindTarget` | crates/graph/src/dataflow.rs:1577-1634 | Binds each name of a target; a store into a subscript, an attribute or any other expression also defines, in the storing scope, every name in what is stored into: callees and arguments of calls included |
| `FlowWalker.Walker.BindParameters` | crates/graph/src/dataflow.rs:1636-1678 | Records each parameter, in order, as a parameter and a definition of its name |
| `FlowWalker.Walker.BindReturn` | crates/graph/src/dataflow.rs:1680-1694 | Links the returned values into the return node and records it for the function |
| `FlowWalker.Walker.Visit` | crates/graph/src/dataflow.rs:495-581 | Records exactly what visiting the statement records: both branches, loop bodies once, function bodies in their own scope |
| `FlowWalker.Walker.VisitModules` | crates/graph/src/dataflow.rs:327-337 | Walks every module in its own scope, one after the other |
| `FlowLinks.CarriesIff` | crates/graph/src/dataflow.rs:592-708 | The value of an expression is carried by its own node, by those of the operands of a union, and of a comparison by none |
| `FlowLinks.EvaluatedIff` | crates/graph/src/dataflow.rs:592-708 | Of every expression: evaluating it records what the expressions evaluated in it record, and nothing else; attributes and subscripts a link from what they select from, an index none; a call one from each actual into its value for each external callee that preserves them, or else into the callee's formals, at that callee's confidence |
| `FlowLinks.BoundIff` | crates/graph/src/dataflow.rs:1577-1634 | Of every target: storing into it defines exactly the names of the places it is stored into through, by exactly the values stored, and evaluates their indexes |
| `FlowEvents.RecordedIff` | crates/graph/src/dataflow.rs:327-337 | Of every program and every event: the walk records it exactly when some statement that stands in the program records it by itself, in the scope it stands in |
| `FlowGraph.ResolveRead` | crates/graph/src/dataflow.rs:1722-1743 | Climbs scope by scope to the first that defines the name and links each of its definitions there to the read |
| `FlowGraph.Build` | crates/graph/src/dataflow.rs:327-344 | Walk, reads and package calls together: the graph is the recorded links, the read links and the wired calls, hubs included |
| `FlowConverse.NearestIff` | crates/graph/src/dataflow.rs:1722-1743 | The scope a read is resolved to is the first, outwards, in which some statement defines the name or some function has it as a parameter |
| `FlowConverse.BindsIff` | crates/graph/src/dataflow.rs:1882-1923 | Calling a package function binds a node to another exactly when an actual wired to the parameter, past one where a receiver counts, carries the one and the other is the parameter's, or the one is of a value it returns and the other the call's |
| `FlowConverse.LinkedIff` | crates/graph/src/dataflow.rs:327-344 | Of every program whose functions have their own symbols and parameter names: the graph has a link exactly when some statement hands a value on along it, at that confidence: in an expression it evaluates, into a name it stores into, out of its function, from where a name is defined to where it is read, into a parameter or out of a call |
| `FlowConverse.PathIff` | crates/graph/src/dataflow.rs:327-344 | Of the graph as it is built, hubs included, at every confidence: it has a path between two nodes of the program exactly when values are handed on from one to the other, statement by statement |
| `FlowConverse.SelectedOnly` | crates/graph/src/dataflow.rs:626-637 | Into the node of a subscript or an attribute leads what it selects from, at Resolved, and nothing else in the whole graph: no index, nothing that is only compared |
| `FlowConverse.ResultOnly` | crates/graph/src/dataflow.rs:742-993 | Into a call's value leads what comes out of one of its callees, at that callee's confidence, and nothing else: the actuals of an external one that preserves them, what a package function returns, and nothing through one that does neither |
| `FlowPassed.HandedIsPassed` | crates/graph/src/dataflow.rs:592-708 | Against runs: for every expression and every link it hands a value on along, some program that has the expression as a statement has a run in which one value has been at both ends of the link, or one that has been at its start is taken at its end, unless a call inside it can be come back from in no way |
| `FlowPassed.HandsAgain` | crates/graph/src/dataflow.rs:1577-1634 | The index of a target walked a second time hands on the same values, between the second nodes |
| `FlowRecord.KeysAreBindsIff` | crates/graph/src/dataflow.rs:1577-1678 | Of every program: the names with definitions in a scope are those its statements bind, those in what they store into, through calls and their arguments too, and its parameters; they are exactly the names it binds when, and only when, every store has in it only names its own scope binds |
| `FlowRecord.OwnParams` | crates/graph/src/dataflow.rs:1636-1678 | Of every program whose functions have their own symbols: what is recorded for a function's symbol are its own parameters in order |
| `FlowCarried.LookupIsNearest` | crates/graph/src/dataflow.rs:1722-1743 | In every sound state, the activation where a run finds a name belongs to the scope that climbing resolves the name to |
| `FlowActuals.OffsetIff` | crates/graph/src/dataflow.rs:1872-1879 | Of every program: the walk skips as many leading parameters of a callee as the language does exactly when the call lines up with it, a condition on decoration, the way the method is come to and whether the receiver leaves a node |
| `FlowActuals.ParamCarried` | crates/graph/src/dataflow.rs:1786-1923 | Whatever a run binds a parameter to, by position, keyword, spread or as receiver, left over for a starred one included, with methods bound as the language binds them, is linked to the parameter's node wherever calls line up and leave no actual over, through a hub when the call is wide |
| `FlowSoundness.EvalSound` | crates/graph/src/dataflow.rs:592-708 | Evaluating an expression in a sound state leaves a sound state and a value every node of which leads to the nodes the walk returns |
| `FlowSoundness.ExecSound` | crates/graph/src/dataflow.rs:495-581 | Executing a statement in a sound state leaves a sound state, whichever branches and how many turns are taken |
| `FlowTheorem.RunSound` | crates/graph/src/dataflow.rs:261-344 | Every run, of any interleaving of module starts and outside calls with any choices, stays in sound states |
| `FlowTheorem.TaintSound` | crates/graph/src/dataflow.rs:261-344 | In every run of every program of the fragment, if a value that passed through one node is passed to an external call's argument, the graph has a path between them, using only links no less confident than the least confident call the run may enter; for every confidence level, hubs included. The fragment asks five things of a program: stores stay inside, names imported come from outside the package and are bound by no scope that comes first, calls line up with the methods they may come to, they leave no actual over for a starred parameter, and initialisers put nothing into the objects they make |
| `FlowGaps.ReadFindsItsScopeIff` | crates/graph/src/dataflow.rs:1722-1743 | Of every program, activation and name not imported in its file: a read is resolved to the scope where a run finds the name exactly when the nearest scope outwards that binds the name, or stores into something with that name in it, also binds it |
| `FlowGaps.AllReadsAgreeIff` | crates/graph/src/dataflow.rs:1577-1743 | Every such read there could be is resolved to the scope that binds its name exactly when every store of the program has in what it stores into, calls and their arguments included, only names its own scope binds |
| `FlowGaps.StoreOutsideIsMissed` | crates/graph/src/dataflow.rs:1577-1634 | Where one does not, a flow is missed: after a store into a variable of an enclosing scope, or into what a call with that variable gives, a run carries the variable's old value to a sink and the graph has no such path |
| `FlowImports.ImportedReadIff` | crates/graph/src/dataflow.rs:592-605 | Of every program, activation and dotted name that starts with an imported one: no read is recorded and so no definition linked to it, and there is no variable that a run may read for it exactly when no scope that binds the name comes first and no module of the package binds what it is imported from |
| `FlowImports.ImportedReads` | crates/graph/src/dataflow.rs:599-605 | And what a run reads for such a name is what the name is outside, or what such a variable holds |
| `FlowImports.ImportIsMissed` | crates/graph/src/dataflow.rs:599-605 | One module's variable imported by another: a run carries its value to a sink in the other, and the graph has no such path |
| `FlowLost.ActualsWiredIff` | crates/graph/src/dataflow.rs:1868-1909 | Of every program, function and call that lines up with it: each actual is wired to every parameter that the language may bind it to exactly when none is left over: no positional one beyond a starred parameter's own place or moved on by a spread, no keyword for a doubly starred parameter of another name |
| `FlowLost.ActualIsLost` | crates/graph/src/dataflow.rs:1697-1909 | A second actual for `*x`, a keyword for `**x`, and an actual for a parameter whose name its file imports: a run hands each to a sink, and the graph has no such path |
| `FlowOffsets.ActualsLandIff` | crates/graph/src/dataflow.rs:1872-1909 | Of every program, method whose first parameter takes a positional actual, and call: receiver and positional actuals are wired to the parameters a run binds them to exactly when the call lines up with the method: a static method takes no counted receiver, a method called on its class neither, any other method one that leaves a node, initialisers always one |
| `FlowOffsets.SentIsFoundIff` | crates/graph/src/dataflow.rs:1868-1909 | For every kind of method (plain function, method, initialiser; static, class method or neither), way of coming to it and receiver, a run hands a literal passed to it to a sink, and the graph has a path that says so exactly when the call lines up with the method |
| `FlowOffsets.StaticCallIsMissed` | crates/graph/src/symbols.rs:137-145 | Every `def` in a class counts as a method: what is passed to a static method called on an object reaches a sink in a run and not in the graph |
| `FlowOffsets.UnboundAndNumberCallsAreMissed` | crates/graph/src/dataflow.rs:1872-1879 | The same for a method called on its class, and for one called on a number |
| `FlowObjects.OnlyReturnsComeOut` | crates/graph/src/dataflow.rs:1882-1923 | Of every program: into the value of a call the wiring leads from what the callee returns and from nothing else, so nothing comes out of an initialiser |
| `FlowObjects.ObjectHoldsIff` | crates/graph/src/dataflow.rs:1577-1634 | Of every program and every initialiser whose body is stores, called anyhow: the object it has made holds something exactly when some store goes into its first parameter |
| `FlowObjects.MadeIsMissedIff` | crates/graph/src/dataflow.rs:1882-1923 | The same for one initialiser that puts a secret into the object and one that does not: the secret goes to a sink with the object exactly where some store goes into the first parameter, and the graph has a path in neither case |
| `Lowering.ParsePython` | crates/parse/src/python.rs:145-193 | The explicit stack yields the pre-order arena of the tree of emitted nodes, defined by recursion, and as many errors as the tree has error nodes |
| `Lowering.SubtreeFills` | crates/parse/src/python.rs:145-193 | The nodes below any node are exactly a contiguous interval of ids starting at it |
| `Lowering.LoweringContract` | crates/parse/src/python.rs:145-193 | For every tree and node: its id is its position, its parent comes before it, `children` lists in ascending order exactly the nodes naming it as parent, and its subtree is an interval |
| `LoweredNodes.ArenaIs` | crates/parse/src/python.rs:145-193 | Of every tree: the arena has, in the order they stand in the tree, exactly the named nodes and the errors, each with its kind, span and field name, and below each exactly as many nodes as are kept of what is below it in the tree; the count of errors is the number of error nodes |
| `SymbolTable.Table.Push` | crates/core/src/symbols.rs:126-149 | Appends under the next id and keeps all three indexes equal to scans of the symbols |
| `SymbolTable.Table.ResolveBareName` | crates/graph/src/symbols.rs:203-212 | Climbing through the scope index equals scanning the symbols backwards scope by scope, and ends |
| `SymbolTable.LastInIsLast` | crates/core/src/symbols.rs:126-149 | What the scope index must answer is the last definition of that name in that scope, and none exactly when there is none |
| `SymbolTable.LastQualifiedIsLast` | crates/core/src/symbols.rs:117-131 | What the index of qualified names must answer is the last symbol of that name, and none exactly when there is none |
| `SymbolTable.AllNamedIsAll` | crates/core/src/symbols.rs:153-158 | What the name index must answer is every callable of that name, ascending |
| `DefinitionScopes.EnclosingScope` | crates/graph/src/symbols.rs:164-176 | Climbing parents finds the symbol of the innermost enclosing definition |
| `DefinitionScopes.AddDefinitions` | crates/graph/src/symbols.rs:96-161 | Appends one symbol per definition of the arena, in order, each scoped to its innermost enclosing definition or the module, with the indexes kept |
| `DefinitionScopes.AddFile` | crates/graph/src/symbols.rs:61-88 | A file adds its module symbol and then its definitions, whatever is in the table already |
| `DefinitionScopes.InnermostScope` | crates/graph/src/symbols.rs:96-161 | The symbol of a definition stands where its position in the file says and its scope is the symbol of the innermost enclosing definition, an earlier one |
| `SymbolContents.SymbolIs` | crates/graph/src/symbols.rs:96-161 | Of every definition of a file: its symbol names it, is scoped to the symbol of the nearest definition around it, or to the module's when there is none, is a class, a lambda, or a method exactly when that scope is a class and a function otherwise, and is called by its own name, qualified by its scope's |
| `SymbolContents.LambdasApart` | crates/graph/src/symbols.rs:101-105 | No two lambdas of a file have the same name |
| `DefinitionScopes.ScopesStayFirst` | crates/graph/src/symbols.rs:96-161 | Scope ids strictly decrease, file after file: what makes climbing end |
| `DefinitionScopes.BuildSymbols` | crates/graph/src/symbols.rs:52-58 | After any build the indexes agree with scans and every scope precedes what it encloses |
| `DefinitionScopes.LoweredIsArena` | crates/parse/src/python.rs:182-193 | The arena the lowering builds meets what the symbol pass relies on |
| `CacheKeys.KeyRoundTrip` | crates/core/src/cache_key.rs:49-76 | Reading the forty bytes of a key gives the key back |
| `CacheKeys.OnlyKey` | crates/core/src/cache_key.rs:57-76 | Every forty bytes are the bytes of the key read from them; other lengths are the bytes of no key |
| `CacheKeys.KeysApart` | crates/core/src/cache_key.rs:49-55 | Different digest, ruleset or schema never share a key |
| `CacheKeys.ToBytes` | crates/core/src/cache_key.rs:49-55 | The buffer filled part by part is the digest followed by the two versions, big-endian |
| `CacheKeys.KeyInBytes` | crates/core/src/cache_key.rs:49-55 | Byte by byte: the digest first, then ruleset and schema, each with its most significant byte first |
| `ResultCache.Cache.Get` | crates/cache/src/lib.rs:153-173 | A hit exactly for a stored entry that decodes, with its report; a stored entry that does not decode is an error, not a miss; only a hit is marked as used, nothing stored changes |
| `ResultCache.Cache.Put` | crates/cache/src/lib.rs:181-206 | Never overwrites: an entry already there leaves both tables unchanged, a new one is added with its day |
| `ResultCache.Cache.ReadStats` | crates/cache/src/lib.rs:208-221 | Entries, bytes and the number of entries of another schema; an older ruleset is not counted as stale here |
| `Retention.StatsAgreeIff` | crates/cache/src/lib.rs:208-299 | What the statistics count as stale is among what the next sweep removes as stale, and as many exactly when every entry of the current schema is of the current ruleset too |
| `Retention.OldRulesetIsNotCounted` | crates/cache/src/lib.rs:208-299 | A store of one entry of an older ruleset: none is counted as stale, and the sweep removes it as stale |
| `ResultCache.Evict` | crates/cache/src/lib.rs:307-320 | Removes the shortest prefix in order of last use, then key, that brings the rest within the cap |
| `ResultCache.Cache.FinishOn` | crates/cache/src/lib.rs:247-331 | Marks what was served, then both tables lose exactly the stale, the long unused and the evicted entries; the counters are their numbers |
| `Retention.SweepIsUnique` | crates/cache/src/lib.rs:247-331 | Tables, counters and evicted entries are determined by the store, what was served, the versions, the limits and the day: no iteration order matters |
| `Retention.AfterSweep` | crates/cache/src/lib.rs:247-331 | Every survivor is unchanged, of the current shape and ruleset and young enough; their bytes are within the cap; both tables have the same keys; the counters sum to the entries lost |
| `SweepTheorem.SweepIs` | crates/cache/src/lib.rs:247-331 | What stays is what was stored, is forty bytes of a digest under this ruleset and schema, was last used at most the given number of days ago and was not evicted, with the report it had and the day it was last used; the counters are the numbers of the entries that fail each of these |
| `SweepTheorem.EvictedIs` | crates/cache/src/lib.rs:307-320 | Everything evicted was last used on an earlier day than everything that stays, or on the same one with lesser bytes at the first place the keys differ; without a cap nothing is evicted, with one the rest fits, and would not together with the last evicted |
| `SweepTheorem.TotalIs` | crates/cache/src/lib.rs:307-320 | What is held to the cap is the lengths of keys and reports together |
| `ScanRuns.HonestServesFresh` | crates/cli/src/scan.rs:168-223 | An entry under a scanned file's key decodes to the report a fresh scan of that file gives, provided equal digests mean the same bytes under the same name |
| `ScanRuns.RenamedIsServedTheOldName` | crates/cli/src/scan.rs:186-222 | Equal bytes under a second name are served the first name's report, which is fresh for the second exactly when the two names are the same |
| `ScanRuns.ScanRenamed` | crates/cli/src/scan.rs:168-223 | Two runs: one scans a file into an empty cache, the next is given the same bytes under a name of its own and is served the first one's report from the cache, its own fresh one exactly when the names are the same |
| `ScanRuns.StepWorker` | crates/cli/src/scan.rs:168-223 | One step of one worker, lookup or deposit, keeps the shared cache honest, overwrites nothing and finishes only with the fresh outcome; a file is looked up before it is analysed, and a report analysed leaves an entry under the file's key |
| `ScanRuns.ScanShared` | crates/cli/src/scan.rs:69-107 | In every interleaving of the workers' steps all finish with fresh outcomes; a file that had an entry is served it and not analysed, and every file with a report leaves one |
| `ScanRuns.ScanMany` | crates/cli/src/scan.rs:69-118 | A batch gives fresh outcomes with or without the cache; runs that name none, with other than the default options, or that find the file in use, leave it unchanged, and a damaged one ends the run; any other serves what there is, stores what it analyses, overwrites nothing, and leaves behind all of it or what the sweep keeps |
| `ScanRuns.RunAll` | crates/cli/src/scan.rs:69-118 | Over any sequence of batches with mixed options, rulesets, schemas, days, limits and crashes, every finished scan equals the fresh scan |
| `Decoders.Base64Decode` | crates/graph/src/fold.rs:439-477 | The chunk loop computes Base64 decoding with its size guard, whitespace and padding rules |
| `Decoders.Base64RoundTrip` | crates/graph/src/fold.rs:439-477 | The encoding of sections 4 and 5 of RFC 4648, padded or not, with any ASCII whitespace put in, decodes to the bytes encoded exactly when it is within the size guard |
| `Decoders.ValueIff` | crates/graph/src/fold.rs:440-451 | A byte has the value of its place in the alphabet of RFC 4648, with the last two symbols of Table 2 when URL-safe, and a byte without a place has none |
| `Decoders.HexRoundTrip` | crates/graph/src/fold.rs:479-496 | The encoding of section 8 of RFC 4648 in either case, with any whitespace put in, decodes to the bytes encoded |
| `Decoders.DigitValueIff` | crates/graph/src/fold.rs:479-496 | A digit has the value of its place in Table 5 of RFC 4648, in either case |
| `Decoders.Rot13Twice` | crates/graph/src/fold.rs:498-507 | Rotating twice gives the input back, for all bytes |
| `Decoders.Rot13Letter` | crates/graph/src/fold.rs:498-507 | Each letter becomes the one thirteen places on, around the end of the alphabet and in its own case; other bytes stay |
| `Fold.Folder.Eval` | crates/graph/src/fold.rs:122-149 | Evaluation with its two depth counters gives the bounded value, appends the decoders applied innermost first and records the deepest nesting |
| `Fold.FoldLiteral` | crates/graph/src/fold.rs:98-110 | Folds exactly the expressions to which the byte-level evaluator without bounds gives a value and which exceed no bound on the way; the bytes are that evaluator's, at most the larger of 2^20 and the longest literal; depth is at most 8, and 0 exactly when no decoder is listed |
| `Fold.SizeBound` | crates/graph/src/fold.rs:176-334 | Only a literal written out can exceed the size limit |
| `Fold.DepthBound` | crates/graph/src/fold.rs:287-334 | Decoders nest at most eight deep, and a fold has depth 0 exactly when it applied none |
| `FoldChains.ChainReplays` | crates/graph/src/fold.rs:287-334 | Following the listed decoders from first to last, from the bytes of the literal inside a chain of decoder calls, gives what the chain folds to, and there are as many as it is deep |
| `Texts.CodecIff` | crates/graph/src/fold.rs:279-283 | Text encoded in a codec has the bytes of its UTF-8 exactly for UTF-8 and ASCII, for Latin-1 when the text is ASCII, and for UTF-16 never |
| `Literals.ReadLiteral` | crates/graph/src/fold.rs:389-435 | From the characters of a literal as it stands in the source: prefix checked, the first pair of quotes that fits taken off, escapes resolved one by one; no bytes where an escape, the prefix or the quotes are not understood |
| `PythonLiterals.LiteralReadIff` | crates/graph/src/fold.rs:389-435 | Of every literal, side-by-side ones included, that both read: the bytes are those of what Python reads exactly when it is one literal, has no carriage return and, unless it is raw, no `\0` before an octal digit and, in a text, no escaped byte above 0x7F |
| `Texts.FlipIff` | crates/graph/src/fold.rs:220-258 | The bytes of a text backwards are the UTF-8 of the text backwards exactly when all its characters are ASCII |
| `FoldMeaning.OperandReadIff` | crates/graph/src/fold.rs:153-169 | An integer operand with any nest of `-`, `+`, `~` and `not` is read as the integer it is exactly when what these do beyond their signs cancels out |
| `FoldMeaning.RepeatRightIff` | crates/graph/src/fold.rs:176-207 | A repetition of something folded rightly is folded to what it means exactly when its count is read rightly, nothing is repeated, or the count is read as 0 and is negative |
| `FoldMeaning.ChrRightIff` | crates/graph/src/fold.rs:248-252 | A character by number is folded to what it means exactly when the number is read rightly |
| `FoldMeaning.LiteralRightIff` | crates/graph/src/fold.rs:389-435 | The same as a node of an expression: a literal is folded to what it means exactly when the folder reads it as Python does |
| `PythonDecoders.Base64Iff` | crates/graph/src/fold.rs:437-477 | Of every text that the folder decodes, in either alphabet: Python's decoder, which passes over what is no symbol, stops at padding that completes four and refuses four not completed, gives the same bytes exactly when no symbol follows padding that completes four, and the last four are complete or padded |
| `PythonDecoders.UnhexlifyIff` | crates/graph/src/fold.rs:479-496 | Of every text that the folder decodes as hexadecimal: `unhexlify` gives the same bytes exactly when there is no whitespace |
| `PythonDecoders.Base16Iff` | crates/graph/src/fold.rs:479-496 | And `b16decode` exactly when there is none and no lower-case digit |
| `PythonDecoders.FromHexIff` | crates/graph/src/fold.rs:479-496 | And `bytes.fromhex` exactly when whitespace parts no pair of digits |
| `FoldMeaning.DecodeRightIff` | crates/graph/src/fold.rs:312-327 | A value that the folder decodes is decoded to what Python makes of it exactly where it suits the decoder: padded rightly, digits together, and texts only where `bytes.fromhex` or a rotation meets them |
| `FoldMeaning.TextOfIff` | crates/graph/src/fold.rs:279-283 | Bytes decoded by a codec are folded to what they mean exactly when the codec suits the text they are |
| `FoldMeaning.TurnedIff` | crates/graph/src/fold.rs:220-258 | A reversal is folded to what it means exactly when it is of bytes or of ASCII text |
| `FoldMeaning.FoldMeans` | crates/graph/src/fold.rs:98-334 | Where every node is read as it is written, which the conditions above decide node by node for literals, operands, repetitions, characters by number, codecs, reversals and decoders, what an expression folds to is the bytes of what it means in Python, with texts as code points |
| `FoldExtent.FoldedIff` | crates/graph/src/fold.rs:98-334 | Of every expression that means a text or bytes in Python and is read as it is written: it has a value exactly when no count in it is negative and every decoder in it is given what it takes, symbols or digits and whitespace, and whole groups of them |
| `FoldExtent.FitsIff` | crates/graph/src/fold.rs:114-334 | And it is within the bounds exactly when it is nested at most 256 deep, decoders in it at most 8, and nothing put together or decoded on the way is larger than the limit |
| `FoldExtent.ResultIs` | crates/graph/src/fold.rs:98-334 | So the folder's whole answer for it is the bytes of what it means when all that holds, and none otherwise |
| `FoldExtent.LiteralIs` | crates/graph/src/fold.rs:389-435 | Of every literal that Python reads: the folder gives its bytes exactly when it reads it as meant, and gives other bytes or none otherwise |
| `FoldExtent.UnescapedIff` | crates/graph/src/fold.rs:410-432 | What stands between quotes is understood exactly when every escape in it is a line feed, return, tab, zero, backslash, quote or two hexadecimal digits |
| `FoldMisread.InvertedCountIsMisread` | crates/graph/src/fold.rs:153-207 | Repeating a nonempty literal `~5` times is empty and folds to five copies |
| `FoldMisread.AccentIsMisread` | crates/graph/src/fold.rs:220-236 | One accented letter reversed is itself and folds to its two bytes the wrong way round |
| `FoldMisread.OctalIsMisread` | crates/graph/src/fold.rs:414-426 | `b'\012'` is a line feed and folds to a zero and two digits |
| `FoldMisread.AdjacentIsMisread` | crates/graph/src/fold.rs:399-402 | `'a' 'b'` is `ab` and folds with the quotes between |
| `FoldMisread.FormattedIsFolded` | crates/graph/src/fold.rs:387-402 | A literal beside a formatted one folds, formatting and all, where the formatted one alone is refused |
| `FoldMisread.OperatorsArePassedOver` | crates/graph/src/fold.rs:122-149 | Any operator before a text, and a display around it, folds to the text, though neither is one |
| `FoldMisread.UnpaddedIsFolded` | crates/graph/src/fold.rs:437-477 | For all bytes within the size limit whose Base64 needs padding: a call that decodes it written without folds to the bytes, where Python raises |
| `FoldMisread.PaddingInsideIsMisread` | crates/graph/src/fold.rs:452-457 | `b64decode('QQ==QUJD')` is one byte and folds to four |
| `Findings.NewFinding` | crates/core/src/finding.rs:159-194 | Refused exactly when the path is not well formed, with an error of its own for an empty path; an accepted finding keeps rule, technique, severity, phase and path and scores in [0, 1] |
| `Findings.ScoreIs` | crates/core/src/finding.rs:22-73 | The score in numbers: 1, 0.8, 0.6 or 0.4 by severity, times 1, 0.8 or 0.5 by phase where phases weigh, times 1, 0.6 or 0.4 by confidence, times 1.15 when obfuscated, and at most 1 |
| `Findings.ScoreMonotone` | crates/core/src/finding.rs:63-73 | A higher severity, a stronger phase, a surer or an obfuscated path never scores less |
| `Findings.AggregateIgnoresOrder` | crates/core/src/finding.rs:83-104 | Two lists with the same findings have the same risk, whatever order and repetitions |
| `Findings.AggregateRange` | crates/core/src/finding.rs:83-104 | The risk of every list lies in [0, 1], is at most 0.65 when no finding is a data path, and is never below any finding's score, up to that ceiling |
| `Findings.AggregateMonotone` | crates/core/src/finding.rs:83-104 | One more finding never lowers the risk |
| `Findings.MaliciousIff` | crates/core/src/finding.rs:83-125 | Malicious exactly when some finding is a data path and the highest score plus the bonus per further objective reaches the threshold: control evidence alone never is |
| `Findings.AggregateIs` | crates/core/src/finding.rs:83-104 | No findings give 0; with a data path among them the risk is the lesser of 1 and the greatest score plus 0.05 for every distinct objective after the first, without one the lesser of that and 0.65 |
| `Findings.VerdictIff` | crates/core/src/finding.rs:99-127 | Malicious exactly when there is a data path and that sum is at least 0.70; Suspicious exactly when there are findings and the sum is at least 0.40 and, with a data path, below 0.70; Clean otherwise |
| `RuleEngine.ControlFindings` | crates/rules/src/engine.rs:96-124 | One path per target node, from the first root of the rule's phase that reaches any target there; none missed |
| `RuleEngine.Cooccurrence` | crates/rules/src/engine.rs:174-217 | One well-formed pair per target that has a partner, with the first source found in the same file or definition, phase roots standing for the rule's phase only |
| `RuleEngine.MakeFindings` | crates/rules/src/engine.rs:131-155 | Succeeds exactly when every path is well formed, and then each finding states its path, severity, phase and score |
| `RuleEngine.FoundIffShown` | crates/rules/src/engine.rs:59-156 | In every mode, a node is reported exactly when some target there is what the rule asks for: connected within the bound, connected through a write, reached by a root of its phase, or paired |
| `RuleEngine.EvaluateRule` | crates/rules/src/engine.rs:59-156 | No rule is ever refused: every path its search found becomes one finding about it, and a node is reported exactly when some target there is what the rule asks for |

## Left out

Assumptions, and contracts weaker than one could wish:

- Dependencies.FromRequirements: takes each requirement as the name it resolves to; reading names out of PEP 508 text is string work.
- Betweenness.Betweenness: exact arithmetic; the rounding of 64-bit floats, by which a computed value may leave the true one slightly, is not modelled.
- DataPaths.DataPathsTo: locations, patterns and file names of nodes are given with the graph; one search bound is a parameter instead of the default of 64 edges.
- FanOut.BuildEdges: its edges are those FanOutTheorem and CallEdges are about; CallEdges.CallsIff says which calls they are.
- RuleEngine.EvaluateRule: keeps the order of the search; the final sort of findings by location, their messages and the confidence filter of the caller are not modelled.
- HubTheorem.HubsKeepReachability: speaks of reachability and confidence; edge kinds and spans are not kept.
- FanOut.NumberSets: numbers the fan-out nodes in order of first appearance where the code uses the sorted order of the sets; no other statement depends on their numbers.
- FlowSyntax.NodesApart: nodes get indices computed from syntax node and role, where the code counts them up; everything else only uses that they differ.
- FlowTheorem.TaintSound: covers assignment to names, tuples, subscripts and attributes, augmented assignment, if, while, for, return, nested functions, functions and methods called with positional, keyword and spread arguments in every way that lines up and leaves nothing over for starred parameters, initialisers that put nothing into the object they make, names imported from outside the package, and external calls that keep or drop their arguments. Stores go into the storing scope's own variables; parameter names are distinct.
- FlowTheorem.TaintSound: containers and objects are values, without aliasing, so what one method puts into `self` and another takes out is in no run, except that an object being made carries what its initialiser stores through its first parameter while that still stands for it. A class method is passed what it is called on, where Python passes the class. What is stored into what a call gives lives no longer than the store. Decorators other than `staticmethod` and `classmethod`, and bound methods kept and called later, are not modelled.
- FlowTheorem.TaintSound: a name imported from a module of the package is that module's variable whenever it is read, where Python copies it when the import is executed; modules of the package as values, and star imports, are not modelled. Where a starred parameter comes with an annotation the code does not record it at all.
- FlowTheorem.TaintSound: does not cover class scopes, `global` and `nonlocal`, `with`, `try`, `match`, `yield`, `await` and assignment expressions, lambdas, comprehensions and f-strings, default parameter values, functions as values and callbacks, receiver-tainting methods, open file handles and interpreter input, guards, and nesting deeper than 200, where the code stops looking.
- FlowConverse.LinkedIff: of programs whose functions have symbols of their own and whose parameters have names of their own, as Python's grammar asks of a parameter list. It says what the graph has, which is more than what runs pass: links along code that is never reached, from every definition of a name to every read of it whatever the order, to parameters a call does not reach (FlowOffsets.ActualsLandIff says when it does), and into the names in a call that is stored into.
- FlowPassed.HandedIsPassed: for what expressions hand on; what statements, reads and package calls hand on depends on the runs the rest of the program allows, and is related to runs by FlowTheorem.TaintSound and the conditions on calls and reads. Names are not bound in the programs it gives, and their functions do nothing.
- FlowGaps.StoreOutsideIsMissed: two programs; which reads of any program go to another scope than a run's is what FlowGaps.ReadFindsItsScopeIff says, and whether such a read also loses a flow depends on what else leads there.
- FlowImports.ImportIsMissed: one program; which names any program reads otherwise than the code is what FlowImports.ImportedReadIff says.
- FlowObjects.ObjectHoldsIff: bodies of stores only; with other statements an initialiser may store and then lose what it made, and FlowTheorem.TaintSound asks that it stores nothing.
- FlowObjects.MadeIsMissedIff: an initialiser of one assignment, into its first parameter or its second; what any initialiser's object holds is FlowObjects.ObjectHoldsIff, and that nothing comes out of any is FlowObjects.OnlyReturnsComeOut.
- Lowering.ParsePython: takes the parsed tree; source text, spans repaired for invalid UTF-8 and the mapping of grammar names to kinds are the parser's.
- DefinitionScopes.BuildSymbols: names of definitions and dotted module names are given; import aliases, attribute types and `src` layouts are not modelled.
- ResultCache.Cache.FinishOn: the two tables are maps and the transaction is atomic; compacting the file is not modelled, and days are unbounded naturals.
- ScanRuns.RunAll: the digest is assumed injective on the scanned files and equal bytes to have equal names; report encoding is assumed faithful; the analysis is a function of input, settings and build. Extraction limits and locking are reduced to the outcomes the batch can see.
- Fold.FoldLiteral: callees come with their resolved name; integers are unbounded where the code's are 64 bits wide. Operators other than `+` and `*`, decoders the code declines, and subscripts other than a reversal fold to nothing.
- FoldChains.ChainReplays: chains of decoder calls down to one literal, rotations with the codec written out; where operands are joined, the list has the decoders of each in order, and does not say which were applied to what.
- FoldMeaning.FoldMeans: one direction for whole expressions, since two misreadings can cancel; the conditions of the single nodes go both ways. It says nothing of what the code folds where Python has no text or bytes: a `reversed` iterator, a display of one item (as in `['ab'][::-1]`), an operator before a text (as in `not 'ab'`, FoldMisread.OperatorsArePassedOver), a formatted literal beside another (FoldMisread.FormattedIsFolded), and calls that raise (FoldMisread.UnpaddedIsFolded). The set display that texts are joined from counts as its items in source order. Of the other nodes with one child, only those that stand for it are `Wrapper`s.
- PythonLiterals.LiteralReadIff: silent on literals that Python refuses, and on escapes for surrogates and names of characters, which the folder does not read either; in raw literals they are no escapes. `bytes.fromhex` takes texts only, as it did before Python 3.14.
- Texts.CodecIff: UTF-16 is little-endian with a byte order mark; codecs other than UTF-8, ASCII, Latin-1 and UTF-16 have no meaning here.

Not modelled at all, because it is input or output, data, or would only add easy members:

- The pattern tables of sources and sinks, matchers of literals (paths, URLs, addresses, wallets) and Python name lists.
- Deciding callees from text: receiver types, `getattr` with a literal, dotted names; the call graph's resolutions are inputs.
- Finding phase roots in `setup.py`, `__init__.py` and `cmdclass`.
- Archive extraction and its limits, downloading, snippets, report output and the command line.
- The evaluation harness and the sample packages.
