# pypeline in Dafny

pypeline composes data-flow pipelines in two stages:

- A **blueprint** is a `Graph`: named nodes (a callable plus default
  arguments) and nested sub-graphs. Two path-keyed edge maps, downstream and
  upstream, hold the wiring. Blueprints are built by storing nodes, by
  `pipe`/`join`/`fan`, and by merging other graphs into them.
- **Calling a blueprint** gives a **context**. This is the running side:
  - there is one node state per definition, with stored arguments, a dirty
    flag and a cache;
  - a cached read (`val`) evaluates only dirty nodes;
  - `set`/`update` invalidate everything downstream;
  - `group.set(**kwargs)` routes global and node-specific parameters through
    the nesting.

This project models both halves, as pure functions over immutable data.

| file | module | what it models |
|---|---|---|
| `common.dfy` | `Common` | paths, values, `params`/`group`, node definitions, results and errors (`pypeline/common.py`, `pypeline/context.py:10-28`) |
| `blueprint.dfy` | `Blueprints` | the flat blueprint: items by absolute path, edge maps, the well-formedness invariant, node storage (`_store_node`, `_store_node_def`) |
| `merge.dfy` | `Merge` | `_store_graph`: structure copy under a prefix, edge rebasing with duplicate filtering |
| `compose.dfy` | `Compose` | `_store`, `union`, the `Graph` constructor |
| `wiring.dfy` | `Wiring` | `_pipe`, `pipe`, `join`, `fan`, module-level `pipe` |
| `runtime.dfy` | `Runtime` | node states, cells, keyword filtering, the invalidation flood, node `set`/`update` |
| `evaluation.dfy` | `Evaluation` | `_eval`, `_eval_cached` and argument assembly |
| `routing.dfy` | `Routing` | `NodeGroup._set_params`, `_set_global_params`, `_set_params_spec` |
| `context.dfy` | `Contexts` | `Context` construction and wiring, the parameter wrapper, the invariant kept by every runtime operation |

## Representation

**Blueprint.** A root graph is stored flat: `items: map<Path, Entry>` maps
each absolute path to a node definition or a sub-graph marker, beside the
shared `down` and `up` edge maps. A `SubGraph` object is a view of its root
at a prefix. Object identity (`graph == self`, `owner == self._root`)
becomes an explicit root `id`. Every operation is proved to keep the
invariant `Wf`, which has five parts:

- the items form a tree;
- every definition knows its own path and root;
- both edge maps are keyed by exactly the node paths;
- every edge resolves to a stored node;
- the two edge maps mirror each other, counted edge by edge.

**Context.** A running instance is a `Machine`. It is an arena of node
configurations and cells keyed by path, plus the group paths and a log of
user-callable invocations.

- User callables are one pure function `f: Apply`. It is passed as a
  parameter.
- Each declared signature is a `Signature` record (parameter names,
  varargs, keywords catch-all).
- Evaluation recurses upstream under a ghost rank map. The rank is the
  acyclicity witness the Python code silently relies on.

The main runtime facts:

- a clean node has only clean feeders (`Coherent`);
- every clean cache equals what evaluating its node now would give
  (`Faithful`);
- both are kept by `set`, `update`, `group.set`, `val` and direct calls
  (`Contexts.Sound` and the lemmas about it);
- after `set` every node reachable downstream is dirty;
- a cache hit calls nothing;
- a direct call leaves the node's own cell alone.

## Model

Plain definitions have no row of their own: `params`, `group`, a node
definition, `Lookup`, name derivation, `Store`, `pipe`, `join`, `fan`,
peers, node states, the peer wrapper and the like. What they mean is
stated by the lemmas and operations below, each of which relates a
definition to an independent account of it: where a store lands
(`StorePath`), what a store leaves holding (`StoreHolds`), which edges
wiring adds (`JoinEdges`, `FanEdges`), and what every peer contributes
(`WireReadsPeer`).

The runtime (`Runtime`, `Evaluation`, `Routing`, `Contexts`) models the
construction of upstream peers as corrected at pypeline/context.py:421; the
first row of "## Findings" states the code as written. Every row below
about evaluation (`Evaluation.Incoming`, `Evaluation.Eval`,
`Evaluation.EvalCached`, `Contexts.ValIsFresh` and the lemmas built on
them) therefore describes the corrected program. As written, reading any
node that has a parameter-targeting upstream edge fails
(`Contexts.WireAsWrittenFails`).

| member | source | states |
|---|---|---|
| Common.RebaseThenUpdate | pypeline/common.py:20-38 | a rebased copy keeps func, name, args and kwargs, so updating it from the original changes nothing; only owner and prefix differ |
| Common.UpdateIdempotent | pypeline/common.py:30-38 | `update` overwrites only func, args and kwargs, so applying the same update twice is applying it once |
| Blueprints.EmptyGraph | pypeline/graph.py:302-316 | a fresh root has no items and empty edge maps, and is well formed |
| Blueprints.StoreNodeDef | pypeline/graph.py:241-264 | storing onto a sub-graph fails; a new name is inserted with empty downstream and upstream lists at its path; an existing node is updated in place with both edge maps unchanged; the path is returned and nothing else changes |
| Blueprints.LookupStored | pypeline/graph.py:241-276 | a stored definition can be looked up again by its prefix and name, and the node found carries the stored callable and arguments |
| Blueprints.StoreNodeDefWf | pypeline/graph.py:241-264 | storing a definition keeps the blueprint well formed and only extends it |
| Blueprints.OverrideWf | pypeline/graph.py:258 | an in-place override keeps path, edge maps and well-formedness |
| Blueprints.InsertWf | pypeline/graph.py:259-262 | inserting a new node with empty edge lists keeps the edge maps keyed by exactly the node paths and mirrored |
| Blueprints.InsertNodePaths | pypeline/graph.py:259-262 | an insertion adds exactly the new path to the node paths |
| Blueprints.MirroredAddEmpty | pypeline/graph.py:261-262 | adding an empty list under a new key on both sides keeps the edge maps mirrored |
| Blueprints.StoreNode | pypeline/graph.py:198-239 | the dispatch of `_store_node`: an own definition returns its path without storing; a foreign one is rebased under this root and prefix; a partial with extra arguments, a lambda, a nameless callable and a non-callable are refused; storing onto a sub-graph name fails |
| Blueprints.StorePath | pypeline/graph.py:198-264 | where a successful store lands depends only on the root, the prefix, the item and the name: an own definition stays put; anything else goes under the prefix with the definition's, the explicit or the derived name |
| Blueprints.StoreNodeWf | pypeline/graph.py:198-239 | every successful `_store_node` keeps the blueprint well formed and only extends it |
| Blueprints.ExtendsTransitive | pypeline/graph.py:198-264 | extension (items kept with their kinds, edge lists kept) composes |
| Merge.RebaseEdges | pypeline/graph.py:187-191 | every rebased edge is the source edge with the destination prefix put in front of its node |
| Merge.RebaseEdgesCount | pypeline/graph.py:187-191 | rebasing preserves edge multiplicities: an edge under the prefix occurs as often as its un-prefixed original, any other edge not at all |
| Merge.Unseen | pypeline/graph.py:184-193 | the appended edges are exactly the candidates missing from the pre-merge list, duplicates among the candidates kept |
| Merge.MergeEdges | pypeline/graph.py:180-196 | merging only appends: every list keeps its old entries as a prefix and gains only edges it did not hold before |
| Merge.MergeEdgesCount | pypeline/graph.py:180-196 | after merging, an edge occurs as often as before, plus its source count when it was absent and both ends lie under the prefix |
| Merge.MergeInto | pypeline/graph.py:137-196 | merging a graph into itself fails; otherwise the merge succeeds exactly when the name is not a node and no copied item lands on an item of the other kind |
| Merge.MergeIntoWf | pypeline/graph.py:137-196 | a successful merge keeps the destination well formed |
| Merge.MergeRootWf | pypeline/graph.py:148-158 | choosing the merge root (the graph itself, or a reused or new sub-graph) keeps the graph well formed and every item with its kind |
| Merge.MergeKeeps | pypeline/graph.py:161-178 | a merge keeps every existing item and its kind, adds exactly the landing paths (and the named sub-graph), and changes no item outside the landing area |
| Merge.MergeLands | pypeline/graph.py:161-178 | every source node lands at destination prefix plus its source path, and every source sub-graph lands as a sub-graph |
| Merge.MergeEdgeCounts | pypeline/graph.py:180-196 | edge counts after a merge: the old count, plus the source count of the un-prefixed edge when the destination held none |
| Merge.MergeAppends | pypeline/graph.py:180-196 | a merge never removes or reorders existing edges, and appends none already present |
| Merge.UnseenTwice | pypeline/graph.py:184-193 | filtering the same candidates again after appending them adds nothing |
| Merge.MergeEdgesTwice | pypeline/graph.py:180-196 | merging the same edges twice is merging them once |
| Merge.MergeIdempotent | pypeline/graph.py:137-196 | merging the same graph twice at the same place is merging it once |
| Compose.StoreWf | pypeline/graph.py:123-135 | storing keeps the blueprint well formed and only grows it |
| Compose.StoreHolds | pypeline/graph.py:123-135 | after a successful `_store`, a node item is a node at the path it resolves to, and every node of a merged graph is a node at the target prefix plus its path |
| Compose.StoreAll | pypeline/graph.py:62-66 | storing nothing changes nothing, and a bare sub-graph anywhere in the list fails the whole call |
| Compose.StoreAllWf | pypeline/graph.py:62-66 | a sequence of stores keeps the blueprint well formed |
| Compose.StoreAllHolds | pypeline/graph.py:62-66 | after a run of stores, every item stored along the way still holds: later stores never take an earlier node away |
| Compose.Union | pypeline/graph.py:55-66 | `union` with nothing changes nothing, and a bare sub-graph among positional or named items fails |
| Compose.UnionWf | pypeline/graph.py:55-66 | `union` keeps the blueprint well formed |
| Compose.NewGraph | pypeline/graph.py:302-322 | `Graph()` with no items is the empty root under the given identity; every graph it builds is well formed and holds each positional and named item it was given, as long as none is already owned by the new identity |
| Wiring.Access | pypeline/common.py:40-41 | `__getattr__` is reached only for names that are no real attribute: exactly those give a parameter-targeting vertex on the definition; a real attribute is the attribute itself, so `d.func` is the plain callable |
| Wiring.AccessRefused | pypeline/graph.py:102-114 | piping a data attribute or the owner of a definition (`d.args`, `d.owner`, …) fails, as `_store_node` refuses a non-callable or a nameless callable |
| Wiring.StoreVertices | pypeline/graph.py:108-114 | one vertex per item in order, with the item's parameter; foreign items land under the current prefix; a non-callable fails |
| Wiring.StoreVerticesPaths | pypeline/graph.py:108-112 | every vertex names the path its item resolves to |
| Wiring.StoreVerticesWf | pypeline/graph.py:108-114 | storing the vertices keeps the blueprint well formed |
| Wiring.AddEdge | pypeline/graph.py:116-121 | one wiring step appends `target` to the source's downstream list and the mirrored edge to the target's upstream list, and changes nothing else |
| Wiring.AddEdgeWf | pypeline/graph.py:116-121 | one wiring step keeps the edge maps mirrored and the blueprint well formed |
| Wiring.LinkableAll | pypeline/graph.py:116-121 | a chain can be wired exactly when every vertex but the last has a downstream list and every vertex but the first has an upstream list |
| Wiring.Chain | pypeline/graph.py:116-121 | wiring a vertex chain fails with a missing-key error exactly when some list is missing, and otherwise leaves items and keys alone |
| Wiring.ChainEdges | pypeline/graph.py:116-121 | for k vertices exactly the k-1 consecutive pairs are appended downstream, and their mirrors upstream, after the existing edges |
| Wiring.ChainWf | pypeline/graph.py:116-121 | wiring a chain keeps the blueprint well formed |
| Wiring.PipeWires | pypeline/graph.py:102-121 | `_pipe` keeps the blueprint well formed and leaves every list as its old contents followed by the new consecutive edges |
| Wiring.PairWires | pypeline/graph.py:102-121 | `_pipe` on two items appends exactly one downstream edge, at the first item's node, and its mirror upstream, at the second's, after the edges already there |
| Wiring.JoinEdges | pypeline/graph.py:84-94 | after `join(froms, t)`, t's upstream list is its old list followed by one edge from each source in order, carrying t's parameter; each source's downstream list is its old list followed by t's vertex once per occurrence; no other list changes |
| Wiring.JoinWf | pypeline/graph.py:84-94 | `join` keeps the blueprint well formed |
| Wiring.FanEdges | pypeline/graph.py:96-100 | after `fan(f, targets)`, f's downstream list is its old list followed by every target's vertex in order; each target's upstream list is its old list followed by an edge from f with that target's parameter, once per occurrence; no other list changes |
| Wiring.FanWf | pypeline/graph.py:96-100 | `fan` keeps the blueprint well formed |
| Wiring.PipeGraphAsWritten | pypeline/graph.py:24-37 | the module-level `pipe` as written; every graph it builds is well formed |
| Wiring.PipeSingleRejected | pypeline/graph.py:31-33 | as written, a single item is handed to `Graph` as one tuple and is always refused |
| Wiring.PipeGraph | pypeline/graph.py:24-37 | the module-level `pipe` with the single item spread: no items give the empty graph, one plain item is stored |
| Wiring.PipeSingleStored | pypeline/graph.py:31-33 | corrected, a single named function yields a graph holding just that node with empty edge lists |
| Runtime.CoherentIffDownClosed | pypeline/context.py:108-117 | on mirrored links, "a clean node has clean feeders" holds exactly when "a dirty node has dirty downstream peers" does; this is why the already-dirty short-circuit is sound |
| Runtime.SetKwargs | pypeline/context.py:200-216 | a key is stored exactly when it was given and the signature takes it (declared name or catch-all), or when it was stored before and `replace` is off; given values win |
| Runtime.SetKwargsIdempotent | pypeline/context.py:200-216 | merging the same keywords twice is merging them once |
| Runtime.SetKwargsForgets | pypeline/context.py:207-208 | a replacing set forgets every earlier merge: only the keywords it is given survive |
| Runtime.SetKwargsFiltered | pypeline/context.py:210-216 | keywords that passed the filter pass it unchanged a second time |
| Runtime.Invalidate | pypeline/context.py:108-117 | invalidation only turns clean cells stale, leaves the node dirty, is a no-op on a dirty node, and changes no cell that is not on a downstream walk from the node |
| Runtime.InvalidateAll | pypeline/context.py:116-117 | invalidating a list of peers leaves every one of them dirty and changes no cell that is not downstream of one of them |
| Runtime.InvalidateClosed | pypeline/context.py:108-117 | invalidation keeps "a dirty node has dirty downstream peers" |
| Runtime.DirtyDownstream | pypeline/context.py:108-117 | under that invariant, every node on a downstream walk from a dirty node is dirty |
| Runtime.InvalidateCoherent | pypeline/context.py:108-117 | invalidating keeps the memoisation invariant and leaves everything reachable downstream dirty |
| Runtime.NodeSet | pypeline/context.py:180-198 | `set` replaces the positional arguments, replaces the keywords through the filter, changes no other node, and invalidates the node; every cache not downstream of the node survives |
| Runtime.NodeUpdate | pypeline/context.py:175-178 | `update` merges the keywords through the filter, keeps positional arguments and old keys, changes no other node, and invalidates the node; every cache not downstream of the node survives |
| Runtime.Retuned | pypeline/context.py:175-198 | changing stored arguments keeps peers resolved and mirrored |
| Runtime.NodeSetCoherent | pypeline/context.py:65-73 | after `set`, the instance is still coherent and every node reachable downstream is dirty |
| Runtime.NodeUpdateCoherent | pypeline/context.py:175-178 | after `update`, the instance is still coherent and every node reachable downstream is dirty |
| Evaluation.Assemble | pypeline/context.py:226-238 | assembly only adds: the earlier positional arguments stay a prefix and every earlier keyword stays present |
| Evaluation.AssembleKeeps | pypeline/context.py:227-236 | a stored or caller keyword that no `params` result carries keeps its value |
| Evaluation.AssemblePlain | pypeline/context.py:237-238 | without `params` results, assembly appends the results to the positional arguments in order and leaves the keywords alone |
| Evaluation.AssembleAppend | pypeline/context.py:229-238 | assembling two runs of results in turn is assembling their concatenation |
| Evaluation.AssembleLastWins | pypeline/context.py:236 | a keyword provided by a later bundle overrides earlier ones |
| Evaluation.Incoming | pypeline/context.py:229-230 | the contributions are one per upstream peer, in order |
| Evaluation.EvalCached | pypeline/context.py:244-254 | a clean node returns its cache and calls nothing; a dirty one is evaluated with its stored arguments, cached, marked clean, and the call is logged |
| Evaluation.Eval | pypeline/context.py:218-242 | a direct call reads every feeder through the cache, logs one call of this node, returns the callable applied to the assembled arguments followed by the caller's, and leaves the node's own cell untouched |
| Evaluation.EvalPeers | pypeline/context.py:229-238 | the loop assembles the feeders' contributions in order and leaves every feeder clean |
| Evaluation.EvalCachedCoherent | pypeline/context.py:244-254 | a cached read keeps the memoisation invariant |
| Evaluation.EvalCoherent | pypeline/context.py:218-242 | a direct call keeps the memoisation invariant |
| Evaluation.EvalCachedFaithful | pypeline/context.py:244-254 | a cached read keeps every clean cache equal to what its node computes |
| Evaluation.EvalFaithful | pypeline/context.py:218-242 | a direct call keeps every clean cache equal to what its node computes |
| Evaluation.CachedIsFresh | pypeline/context.py:244-254 | on a faithful instance a cached read returns what evaluating afresh gives, hit or miss |
| Evaluation.ReadTwice | pypeline/context.py:250-254 | a second read calls nothing and returns the same value |
| Routing.Broadcast | pypeline/context.py:322-333 | `_set_global_params` merges the globals into every descendant node and leaves each dirty; every cache not downstream of some descendant survives |
| Routing.SetSpecAccepts | pypeline/context.py:335-348 | specific routing succeeds exactly when every entry fits: a bundle on a child node, a mapping on a child group, recursively |
| Routing.SetSpecErrors | pypeline/context.py:341-348 | a refused routing fails with one of the four errors the engine raises: wrong call on a group, attribute missing on a node, unknown key, unsupported value |
| Routing.SetSpecRefuses | pypeline/context.py:341-348 | an entry that fits nowhere (a bundle on a group or a missing child, a mapping on a node or a missing child, any other value) refuses the whole set |
| Routing.SetSpecEffect | pypeline/context.py:335-348 | routing changes nothing outside the addressed children, and every node a bundle reaches, at any depth of nested mappings, gets that bundle's arguments and the globals overlaid with its keywords |
| Routing.SetSpecFrame | pypeline/context.py:335-348 | a node no bundle reaches, however deep in the nested mappings, keeps its configuration, even inside an addressed sub-group |
| Routing.SetSpecCoherent | pypeline/context.py:335-348 | specific routing keeps the memoisation invariant |
| Routing.SetSpecMarks | pypeline/context.py:335-348 | every node specific routing reconfigures is left dirty |
| Routing.GlobalPart | pypeline/context.py:307-314 | the global keys are exactly the given keys that name no child |
| Routing.SpecificPart | pypeline/context.py:307-312 | the specific entries are exactly the given entries that name a child |
| Routing.AfterGlobals | pypeline/context.py:316-317 | globals are broadcast only when there are some |
| Routing.SetParamsAccepts | pypeline/context.py:300-320 | `group.set` succeeds exactly when every specific entry fits |
| Routing.SetParamsEffect | pypeline/context.py:300-348 | nodes outside the group are unchanged; a descendant no bundle reaches, at any depth, gets the globals merged through its filter, whether or not it has feeders |
| Routing.SetParamsMarks | pypeline/context.py:316-333 | with any globals, every node below the group ends dirty |
| Routing.SetParamsSpecific | pypeline/context.py:318-348 | every node a bundle reaches, directly or through nested `group(...)` mappings, ends with that bundle's arguments and the globals overridden by its keywords |
| Routing.SetParamsCoherent | pypeline/context.py:300-348 | `group.set` keeps the memoisation invariant |
| Routing.SetParamsStales | pypeline/context.py:300-348 | every node `group.set` reconfigures is left dirty |
| Contexts.InstantiateValid | pypeline/context.py:411-421 | the mirrored edge maps give peers that resolve and agree in both directions |
| Contexts.Construct | pypeline/context.py:373-426 | a context has one dirty node per stored node, with the definition's callable and peers, before any evaluation |
| Contexts.FaithfulKept | pypeline/context.py:108-117 | staling cells and reconfiguring only dirty nodes keeps every clean cache faithful, given the memoisation invariant |
| Contexts.InstantiateSound | pypeline/context.py:373-421 | a fresh instance is sound for any callables |
| Contexts.NodeSetSound | pypeline/context.py:180-190 | `set` keeps the instance sound |
| Contexts.NodeUpdateSound | pypeline/context.py:175-178 | `update` keeps the instance sound |
| Contexts.SetParamsSound | pypeline/context.py:300-348 | `group.set` keeps the instance sound |
| Contexts.ConstructSound | pypeline/context.py:373-426 | every context built from a well-formed blueprint starts sound |
| Contexts.EvalCachedSound | pypeline/context.py:244-254 | `val` keeps the instance sound |
| Contexts.EvalSound | pypeline/context.py:218-242 | a direct call keeps the instance sound |
| Contexts.ValIsFresh | pypeline/context.py:76-80 | on a sound instance `val` returns what evaluating afresh from the feeders gives |
| Contexts.WireAsWrittenFails | pypeline/context.py:418-421 | as written, reading through an edge succeeds exactly when the edge targets no parameter |
| Contexts.WireReadsPeer | pypeline/context.py:268-274 | corrected, every edge contributes exactly what the running model's peer for it contributes |

## Left out

- Partial mutation on failure: a Python operation that raises half way leaves earlier changes behind. The model returns an error and no state.
- `inspect`-based signature extraction and the unwrapping of callable classes and bound methods (pypeline/context.py:159-170). Each callable carries a declared `Signature` record instead.
- Name derivation through `im_func`/`func_name` (pypeline/graph.py:221-231). It becomes a declared name that is a method name, a function name or nothing.
- Dynamic attribute plumbing (`__getattr__`, `__setattr__`, `__dir__`, `__getitem__`). Only the map lookup remains: a missing name is `NotFound`, a missing attribute `MissingAttribute`.
- Attributes a definition inherits from `object` (`__class__`, `__dict__` and the like). `Wiring.Access` covers the definition's own attributes and methods; any other name goes to `__getattr__`.
- User callables and the exceptions they raise. They are one pure function `Apply`; a raising callable is not modelled.
- Cycles: evaluation requires an acyclicity witness (`Ranked`). Python recurses forever on a cyclic graph. Invalidation needs no witness, because it only ever turns clean cells dirty.
- Dictionary order: keyword arguments and `group(...)` are entry sequences, with distinct keys, in the order Python iterates them. The order in which `_set_global_params` visits descendants is a chosen enumeration (`Routing.Enumerate`); the results do not depend on it.
- Routing.Broadcast: all descendants' keywords are merged first and the invalidations run after. Python interleaves them per node. Both give the same configurations and the same set of dirty cells, but the order of the invalidation flood is not modelled.
- Python's exception types: they map onto model errors as follows.
  - A `params` bundle aimed at a sub-group, which calls `NodeGroup._set_params` with too many arguments, raises `TypeError` (`BadCall`).
  - A mapping aimed at a node raises `AttributeError` (`MissingAttribute`).
  - A missing key raises `KeyError` (`NotFound`).
  - Any other value raises `ValueError` (`ParamSpecError`).
- Merging a sub-graph view of another root is refused as `Unsupported` for every view (pypeline/graph.py:130-131). Self-merge is detected by root id, so merging a root into one of its own sub-graph views (`g.sub.union(g)`) is reported as `SelfReference`. Python does not detect that case (`graph == self` is false at pypeline/graph.py:146); its structure copy keeps creating `sub/sub/…` (pypeline/graph.py:161-176) until the recursion limit.
- Keyword dictionaries are values, not shared objects. `_eval` updates the dict it receives in place, but that dict is always a fresh one: a copy in `_eval_cached`, the `**kwargs` dict in a direct call.
- Contexts.Construct: states only the shape of the result. The effect of the initial parameters is stated by the routing lemmas about `SetParams` at the root group.
- Contexts.WrapperRead: a node state used as a keyword name fails at the call with a `TypeError`. The model reports that case as `BadCall` at the read.
- The `in_out_dict` decorator (pypeline/__init__.py): a convenience wrapper outside the engine.
- Python 2 specifics such as `iteritems` and the `__dir__` list concatenation.

## Findings

| source | as written | input that shows it | evidently intended | confidence | as-written member | corrected member |
|---|---|---|---|---|---|---|
| pypeline/context.py:421 | `ParamTargetNodeStateWrapper(target_node, target.param)` passes the node as `param_name` and the name as `state` | any edge that targets a parameter, such as `pipe(a, b.x)`, read through `val` on `b`: `_eval_cached` is called on a string | `ParamTargetNodeStateWrapper(target.param, target_node)`, so the wrapper yields `params((), {param: cached})` | high (not executed) | Contexts.WireAsWrittenFails | Contexts.WireReadsPeer |
| pypeline/graph.py:33 | `Graph(args)` passes the one-element tuple as a single item | `pipe(f)` for any function `f`: the tuple is not callable, so `_store_node` refuses it | `Graph(*args)`, storing the single node | high (not executed) | Wiring.PipeSingleRejected | Wiring.PipeSingleStored |

Where the documentation and the code disagree, the model follows the code.
The `NodeGroup.set` docstring (pypeline/context.py:293) says globals go
only to input nodes. `_set_global_params` applies them to every descendant
whose signature accepts the key, and `Routing.SetParamsEffect` states that
behaviour.
