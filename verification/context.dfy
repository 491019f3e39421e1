/**
 Building a running instance from a blueprint (`Context(graph, kwargs)`,
 `Graph.__call__`), the wrapper that carries parameter-targeting edges, and
 the combined invariant every public runtime operation keeps.
 */
module Contexts {
  import opened Common
  import opened Blueprints
  import opened Runtime
  import opened Evaluation
  import opened Routing

  /** How a running node sees one of its upstream edges: a plain edge feeds
      the peer's cache as it is, a parameter edge feeds it under the name. */
  function PeerOf(e: Edge): (r: Peer)
    ensures r.node == e.node
    ensures r.Direct? <==> e.param.None?
    ensures r.Targeted? ==> r.param == e.param.value
  {
    match e.param
    case None => Direct(e.node)
    case Some(prm) => Targeted(prm, e.node)
  }

  /** The running configuration of the node stored at `p`: named by the last
      step of its path, with the definition's callable, arguments and a copy
      of its keywords, and its peers in the order the edge lists give them. */
  function StateOf(bp: Blueprint, p: Path): (st: NodeState)
    requires Wf(bp) && IsNode(bp, p)
    ensures |p| > 0 && st.name == p[|p| - 1]
    ensures var d := bp.items[p].def; st.func == d.func && st.args == d.args && st.kwargs == d.kwargs
    ensures |st.up| == |bp.up[p]| && forall i | 0 <= i < |st.up| :: st.up[i] == PeerOf(bp.up[p][i])
    ensures |st.down| == |bp.down[p]| && forall j | 0 <= j < |st.down| :: st.down[j] == bp.down[p][j].node
  {
    var d := bp.items[p].def;
    NodeState(p[|p| - 1], d.func, d.args, d.kwargs,
              seq(|bp.up[p]|, i requires 0 <= i < |bp.up[p]| => PeerOf(bp.up[p][i])),
              seq(|bp.down[p]|, j requires 0 <= j < |bp.down[p]| => bp.down[p][j].node))
  }

  /** The group paths of a blueprint, the root included. */
  function GroupPaths(bp: Blueprint): (r: set<Path>)
    ensures forall q :: q in r <==> q == [] || IsGroup(bp, q)
  {
    {[]} + set q | q in bp.items && bp.items[q].GroupEntry?
  }

  /** The walk over the blueprint and the edge wiring in `Context.__init__`,
      before the initial parameters are applied: one state per stored node,
      every node dirty with no cache, one group per sub-graph. */
  function Instantiate(bp: Blueprint): (m: Machine)
    requires Wf(bp)
    ensures m.nodes.Keys == NodePaths(bp) && m.cells.Keys == NodePaths(bp)
    ensures forall p | p in m.nodes :: m.nodes[p] == StateOf(bp, p) && m.cells[p] == Stale
    ensures m.groups == GroupPaths(bp) && m.calls == []
  {
    Machine(map p | p in NodePaths(bp) :: StateOf(bp, p),
            map p | p in NodePaths(bp) :: Stale,
            GroupPaths(bp), [])
  }

  /** An upstream edge of `t` from `s` is matched by a downstream edge of `s` to `t`. */
  lemma UpMirrored(bp: Blueprint, t: Path, i: nat)
    requires Wf(bp) && IsNode(bp, t) && i < |bp.up[t]|
    ensures IsNode(bp, bp.up[t][i].node)
    ensures exists j | 0 <= j < |bp.down[bp.up[t][i].node]| :: bp.down[bp.up[t][i].node][j].node == t
  {
    var e := bp.up[t][i];
    assert e in bp.up[t];
    var s := e.node;
    assert Occurrences(bp.up, t, Edge(s, e.param)) > 0;
    assert Occurrences(bp.down, s, Edge(t, e.param)) > 0;
    assert Edge(t, e.param) in bp.down[s];
  }

  /** A downstream edge of `s` to `t` is matched by an upstream edge of `t` from `s`. */
  lemma DownMirrored(bp: Blueprint, s: Path, j: nat)
    requires Wf(bp) && IsNode(bp, s) && j < |bp.down[s]|
    ensures IsNode(bp, bp.down[s][j].node)
    ensures exists i | 0 <= i < |bp.up[bp.down[s][j].node]| :: bp.up[bp.down[s][j].node][i].node == s
  {
    var e := bp.down[s][j];
    assert e in bp.down[s];
    var t := e.node;
    assert Occurrences(bp.down, s, Edge(t, e.param)) > 0;
    assert Occurrences(bp.up, t, Edge(s, e.param)) > 0;
    assert Edge(s, e.param) in bp.up[t];
  }

  /** Upstream links of the instance are mirrored downstream. */
  lemma InstantiateUpLinked(bp: Blueprint, nodes: map<Path, NodeState>)
    requires Wf(bp) && nodes.Keys == NodePaths(bp)
    requires forall p | p in nodes :: nodes[p] == StateOf(bp, p)
    ensures forall p, i | p in nodes && 0 <= i < |nodes[p].up| ::
              nodes[p].up[i].node in nodes && p in nodes[nodes[p].up[i].node].down
  {
    forall p, i | p in nodes && 0 <= i < |nodes[p].up|
      ensures nodes[p].up[i].node in nodes && p in nodes[nodes[p].up[i].node].down
    {
      UpLinkedAt(bp, p, i);
    }
  }

  /** `InstantiateUpLinked` for the `i`-th peer of node `t`. */
  lemma UpLinkedAt(bp: Blueprint, t: Path, i: nat)
    requires Wf(bp) && IsNode(bp, t) && i < |bp.up[t]|
    ensures bp.up[t][i].node in NodePaths(bp)
    ensures t in StateOf(bp, bp.up[t][i].node).down
  {
    UpMirrored(bp, t, i);
    var s := bp.up[t][i].node;
    var j :| 0 <= j < |bp.down[s]| && bp.down[s][j].node == t;
    assert StateOf(bp, s).down[j] == t;
  }

  /** Downstream links of the instance are mirrored upstream. */
  lemma InstantiateDownLinked(bp: Blueprint, nodes: map<Path, NodeState>)
    requires Wf(bp) && nodes.Keys == NodePaths(bp)
    requires forall p | p in nodes :: nodes[p] == StateOf(bp, p)
    ensures forall p, j | p in nodes && 0 <= j < |nodes[p].down| ::
              nodes[p].down[j] in nodes && p in Feeders(nodes[nodes[p].down[j]])
  {
    forall p, j | p in nodes && 0 <= j < |nodes[p].down|
      ensures nodes[p].down[j] in nodes && p in Feeders(nodes[nodes[p].down[j]])
    {
      DownLinkedAt(bp, p, j);
    }
  }

  /** `InstantiateDownLinked` for the `j`-th follower of node `s`. */
  lemma DownLinkedAt(bp: Blueprint, s: Path, j: nat)
    requires Wf(bp) && IsNode(bp, s) && j < |bp.down[s]|
    ensures bp.down[s][j].node in NodePaths(bp)
    ensures s in Feeders(StateOf(bp, bp.down[s][j].node))
  {
    DownMirrored(bp, s, j);
    var t := bp.down[s][j].node;
    var i :| 0 <= i < |bp.up[t]| && bp.up[t][i].node == s;
    assert StateOf(bp, t).up[i].node == s;
  }

  /** The mirrored edge maps of a well-formed blueprint give an instance whose
      peers resolve and whose upstream and downstream links agree. */
  lemma InstantiateValid(bp: Blueprint)
    requires Wf(bp)
    ensures Valid(Instantiate(bp))
  {
    var m := Instantiate(bp);
    InstantiateUpLinked(bp, m.nodes);
    InstantiateDownLinked(bp, m.nodes);
  }

  /** The invariant the running side keeps between public operations: the
      shape, the memoisation invariant, and every clean cache faithful to
      what its node computes from its peers under the callables `f`. */
  ghost predicate Sound(m: Machine, f: Apply)
  {
    Valid(m) && Coherent(m.nodes, m.cells) && Faithful(m.nodes, m.cells, f)
  }

  /** A fresh instance is sound whatever the callables: nothing is cached yet. */
  lemma InstantiateSound(bp: Blueprint, f: Apply)
    requires Wf(bp)
    ensures Sound(Instantiate(bp), f)
    ensures forall p | p in Instantiate(bp).cells :: Instantiate(bp).cells[p].dirty
  {
    InstantiateValid(bp);
  }

  /** `Context(graph, kwargs)`: the instance with the initial parameters
      applied at the root, as `set` would apply them. */
  ghost function Construct(bp: Blueprint, kwargs: seq<(string, Value)>): (r: Result<Machine>)
    requires Wf(bp)
    ensures r.Ok? ==> r.value.nodes.Keys == NodePaths(bp) && r.value.cells.Keys == NodePaths(bp) && r.value.groups == GroupPaths(bp) && r.value.calls == []
    ensures r.Ok? ==> forall p | p in NodePaths(bp) :: r.value.cells[p].dirty
                                                    && r.value.nodes[p].func == bp.items[p].def.func
                                                    && r.value.nodes[p].up == StateOf(bp, p).up
                                                    && r.value.nodes[p].down == StateOf(bp, p).down
  {
    InstantiateValid(bp);
    SetParams(Instantiate(bp), [], kwargs)
  }

  /** Changing configurations and staling cells keeps every clean cache
      faithful, provided every node whose configuration changed is dirty and
      the memoisation invariant holds afterwards. */
  lemma FaithfulKept(m: Machine, m': Machine, f: Apply)
    requires Valid(m) && Valid(m') && m'.nodes.Keys == m.nodes.Keys
    requires OnlyStales(m.cells, m'.cells) && MarksChanged(m, m')
    requires Coherent(m'.nodes, m'.cells) && Faithful(m.nodes, m.cells, f)
    ensures Faithful(m'.nodes, m'.cells, f)
  {
    forall q | q in m'.nodes && !m'.cells[q].dirty
      ensures m'.cells[q].cache == Denote(m'.nodes, m'.cells, q, f)
    {
      assert m'.nodes[q] == m.nodes[q];
      forall i | 0 <= i < |m.nodes[q].up|
        ensures m'.cells[m.nodes[q].up[i].node] == m.cells[m.nodes[q].up[i].node]
      {
        assert !m'.cells[m'.nodes[q].up[i].node].dirty;
      }
      IncomingFrame(m.nodes[q].up, m.cells, m'.cells);
    }
  }

  /** `node.set(*args, **kwargs)` keeps the instance sound. */
  lemma NodeSetSound(m: Machine, p: Path, args: seq<Value>, kwargs: map<string, Value>, f: Apply)
    requires Sound(m, f) && p in m.nodes
    ensures Sound(NodeSet(m, p, args, kwargs), f)
  {
    var r := NodeSet(m, p, args, kwargs);
    NodeSetCoherent(m, p, args, kwargs);
    FaithfulKept(m, r, f);
  }

  /** `node.update(**kwargs)` keeps the instance sound. */
  lemma NodeUpdateSound(m: Machine, p: Path, kwargs: map<string, Value>, f: Apply)
    requires Sound(m, f) && p in m.nodes
    ensures Sound(NodeUpdate(m, p, kwargs), f)
  {
    var r := NodeUpdate(m, p, kwargs);
    NodeUpdateCoherent(m, p, kwargs);
    FaithfulKept(m, r, f);
  }

  /** `group.set(**kwargs)` keeps the instance sound when it succeeds. */
  lemma SetParamsSound(m: Machine, g: Path, kwargs: seq<(string, Value)>, f: Apply)
    requires Sound(m, f)
    ensures SetParams(m, g, kwargs).Ok? ==> Sound(SetParams(m, g, kwargs).value, f)
  {
    if SetParams(m, g, kwargs).Ok? {
      SetParamsCoherent(m, g, kwargs);
      SetParamsStales(m, g, kwargs);
      FaithfulKept(m, SetParams(m, g, kwargs).value, f);
    }
  }

  /** A context built from a well-formed blueprint starts out sound. */
  lemma ConstructSound(bp: Blueprint, kwargs: seq<(string, Value)>, f: Apply)
    requires Wf(bp)
    ensures Construct(bp, kwargs).Ok? ==> Sound(Construct(bp, kwargs).value, f)
  {
    InstantiateSound(bp, f);
    SetParamsSound(Instantiate(bp), [], kwargs, f);
  }

  /** `node.val` keeps the instance sound. */
  lemma EvalCachedSound(m: Machine, p: Path, f: Apply, rank: map<Path, nat>)
    requires Sound(m, f) && Ranked(m.nodes, rank) && p in m.nodes
    ensures Sound(EvalCached(m, p, f, rank).m, f)
  {
    EvalCachedCoherent(m, p, f, rank);
    EvalCachedFaithful(m, p, f, rank);
  }

  /** `node(*args, **kwargs)` keeps the instance sound. */
  lemma EvalSound(m: Machine, p: Path, args: seq<Value>, kwargs: map<string, Value>, f: Apply, rank: map<Path, nat>)
    requires Sound(m, f) && Ranked(m.nodes, rank) && p in m.nodes
    ensures Sound(Eval(m, p, args, kwargs, f, rank).m, f)
  {
    EvalCoherent(m, p, args, kwargs, f, rank);
    EvalFaithful(m, p, args, kwargs, f, rank);
  }

  /** On a sound instance `val` is a memo of the callables: it returns what
      evaluating the node afresh from its peers' results gives. */
  lemma ValIsFresh(m: Machine, p: Path, f: Apply, rank: map<Path, nat>)
    requires Sound(m, f) && Ranked(m.nodes, rank) && p in m.nodes
    ensures var s := EvalCached(m, p, f, rank);
            s.value == Denote(m.nodes, s.m.cells, p, f) && Sound(s.m, f)
  {
    CachedIsFresh(m, p, f, rank);
    EvalCachedSound(m, p, f, rank);
  }

  // The wrapper for parameter-targeting edges.

  /** What one slot of `ParamTargetNodeStateWrapper` holds: a node state or a
      parameter name. */
  datatype Slot = StateSlot(node: Path) | NameSlot(name: string)

  /** `ParamTargetNodeStateWrapper(param_name, state)`. */
  datatype Wrapper = Wrapper(paramName: Slot, state: Slot)

  /** What `_upstream_wire` appends to a node's upstream list. */
  datatype Upstream = Plain(node: Path) | Wrapped(w: Wrapper)

  /** The wrapper's `_eval_cached`, reading the wrapped node's cache: the
      wrapped state is asked for its value, a string has no such method; the
      result is a `params` bundle keyed by the parameter name, which must be a
      string to be passed on as a keyword. */
  function WrapperRead(w: Wrapper, cells: map<Path, Cell>): (r: Result<Value>)
    requires w.state.StateSlot? ==> w.state.node in cells
    ensures w.state.NameSlot? ==> r == Err(MissingAttribute)
    ensures r.Ok? <==> w.state.StateSlot? && w.paramName.NameSlot?
    ensures r.Ok? ==> r.value.Params? && r.value.args == []
                      && r.value.kwargs == map[w.paramName.name := cells[w.state.node].cache]
  {
    match w.state
    case NameSlot(_) => Err(MissingAttribute)
    case StateSlot(q) =>
      match w.paramName
      case NameSlot(prm) => Ok(Params([], map[prm := cells[q].cache]))
      case StateSlot(_) => Err(BadCall)
  }

  /** What an upstream entry contributes once its node has been read. */
  function ReadUpstream(u: Upstream, cells: map<Path, Cell>): (r: Result<Value>)
    requires u.Plain? ==> u.node in cells
    requires u.Wrapped? && u.w.state.StateSlot? ==> u.w.state.node in cells
  {
    match u
    case Plain(q) => Ok(cells[q].cache)
    case Wrapped(w) => WrapperRead(w, cells)
  }

  /** `_upstream_wire` as written: the wrapper receives the node in the
      parameter-name slot and the parameter name in the state slot. */
  function UpstreamWireAsWritten(e: Edge): (u: Upstream)
    ensures e.param.None? ==> u == Plain(e.node)
    ensures e.param.Some? ==> u == Wrapped(Wrapper(StateSlot(e.node), NameSlot(e.param.value)))
  {
    match e.param
    case None => Plain(e.node)
    case Some(prm) => Wrapped(Wrapper(StateSlot(e.node), NameSlot(prm)))
  }

  /** `_upstream_wire` with the arguments in the constructor's order. */
  function UpstreamWire(e: Edge): (u: Upstream)
    ensures e.param.None? ==> u == Plain(e.node)
    ensures e.param.Some? ==> u == Wrapped(Wrapper(NameSlot(e.param.value), StateSlot(e.node)))
  {
    match e.param
    case None => Plain(e.node)
    case Some(prm) => Wrapped(Wrapper(NameSlot(prm), StateSlot(e.node)))
  }

  /** As written, reading through an edge succeeds exactly when the edge
      targets no parameter: every parameter edge fails with an attribute
      error the first time its downstream node is evaluated. */
  lemma WireAsWrittenFails(e: Edge, cells: map<Path, Cell>)
    requires e.node in cells
    ensures ReadUpstream(UpstreamWireAsWritten(e), cells).Ok? <==> e.param.None?
    ensures e.param.Some? ==> ReadUpstream(UpstreamWireAsWritten(e), cells) == Err(MissingAttribute)
  {
  }

  /** With the corrected order every edge contributes what the running model's
      peer for it contributes. */
  lemma WireReadsPeer(e: Edge, cells: map<Path, Cell>)
    requires e.node in cells
    ensures ReadUpstream(UpstreamWire(e), cells) == Ok(PeerValue(PeerOf(e), cells))
  {
  }
}
