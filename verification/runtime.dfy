/**
 The running side of the pipeline engine (pypeline/context.py): one state
 record per node, a dirty flag and a cache per node, keyword filtering against
 a declared signature, and the downstream invalidation flood.

 A running instance is an arena keyed by node path.  The configuration of a
 node (callable, stored arguments, peers) is kept apart from its cell (dirty
 flag and cache), because evaluation touches only cells and the call log.
 */
module Runtime {
  import opened Common

  /** An upstream peer: a node whose cached result feeds this one, either as a
      value of its own or wrapped so that it lands on the parameter `param`. */
  datatype Peer = Direct(node: Path) | Targeted(param: string, node: Path)

  /** The configuration of a running node: its name, its callable (with the
      declared signature), its stored positional and keyword arguments, its
      upstream peers and its downstream peers. */
  datatype NodeState = NodeState(name: string, func: Func, args: seq<Value>, kwargs: map<string, Value>,
                                 up: seq<Peer>, down: seq<Path>)

  /** The mutable evaluation state of a node: the dirty flag and the cached result. */
  datatype Cell = Cell(dirty: bool, cache: Value)

  /** A cell that must be recomputed before it is read: dirty, cache cleared. */
  const Stale := Cell(true, NoneV)

  /** A running instance: node configurations and cells by path, the paths of
      its groups (the root group is `[]`), and the log of user-callable
      invocations, one entry per call, naming the node whose callable ran. */
  datatype Machine = Machine(nodes: map<Path, NodeState>, cells: map<Path, Cell>, groups: set<Path>, calls: seq<Path>)

  /** The nodes feeding `st`. */
  function Feeders(st: NodeState): (r: set<Path>)
    ensures forall i | 0 <= i < |st.up| :: st.up[i].node in r
    ensures forall q | q in r :: exists i | 0 <= i < |st.up| :: st.up[i].node == q
  {
    set i | 0 <= i < |st.up| :: st.up[i].node
  }

  /** Every peer a node names is a node of the arena. */
  ghost predicate Wired(nodes: map<Path, NodeState>)
  {
    && (forall p, i | p in nodes && 0 <= i < |nodes[p].up| :: nodes[p].up[i].node in nodes)
    && (forall p, j | p in nodes && 0 <= j < |nodes[p].down| :: nodes[p].down[j] in nodes)
  }

  /** Upstream and downstream peers are two views of the same links: a node
      lists its feeders' downstream side, and every downstream peer lists the
      node among its feeders. */
  ghost predicate Linked(nodes: map<Path, NodeState>)
  {
    && (forall p, i | p in nodes && 0 <= i < |nodes[p].up| ::
          nodes[p].up[i].node in nodes && p in nodes[nodes[p].up[i].node].down)
    && (forall p, j | p in nodes && 0 <= j < |nodes[p].down| ::
          nodes[p].down[j] in nodes && p in Feeders(nodes[nodes[p].down[j]]))
  }

  /** The shape every instance keeps: peers resolve, links are mirrored and
      every node has exactly one cell. */
  ghost predicate Valid(m: Machine)
  {
    Wired(m.nodes) && Linked(m.nodes) && m.cells.Keys == m.nodes.Keys
  }

  /** The memoisation invariant: a clean node has only clean upstream peers. */
  ghost predicate Coherent(nodes: map<Path, NodeState>, cells: map<Path, Cell>)
    requires Wired(nodes) && cells.Keys == nodes.Keys
  {
    forall p, i | p in nodes && 0 <= i < |nodes[p].up| && !cells[p].dirty :: !cells[nodes[p].up[i].node].dirty
  }

  /** Dirtiness flows downstream, except possibly out of the nodes in `open`. */
  ghost predicate DownClosedExcept(nodes: map<Path, NodeState>, cells: map<Path, Cell>, open: set<Path>)
    requires Wired(nodes) && cells.Keys == nodes.Keys
  {
    forall p, j | p in nodes && p !in open && 0 <= j < |nodes[p].down| && cells[p].dirty :: cells[nodes[p].down[j]].dirty
  }

  ghost predicate DownClosed(nodes: map<Path, NodeState>, cells: map<Path, Cell>)
    requires Wired(nodes) && cells.Keys == nodes.Keys
  {
    DownClosedExcept(nodes, cells, {})
  }

  /** On linked peers the two readings of the invariant agree: "clean implies
      upstream clean" holds exactly when "dirty implies downstream dirty" does. */
  lemma CoherentIffDownClosed(nodes: map<Path, NodeState>, cells: map<Path, Cell>)
    requires Wired(nodes) && Linked(nodes) && cells.Keys == nodes.Keys
    ensures Coherent(nodes, cells) <==> DownClosed(nodes, cells)
  {
    if Coherent(nodes, cells) {
      forall p, j | p in nodes && 0 <= j < |nodes[p].down| && cells[p].dirty
        ensures cells[nodes[p].down[j]].dirty
      {
        var t := nodes[p].down[j];
        var i :| 0 <= i < |nodes[t].up| && nodes[t].up[i].node == p;
      }
    }
    if DownClosed(nodes, cells) {
      forall p, i | p in nodes && 0 <= i < |nodes[p].up| && !cells[p].dirty
        ensures !cells[nodes[p].up[i].node].dirty
      {
        var s := nodes[p].up[i].node;
        var j :| 0 <= j < |nodes[s].down| && nodes[s].down[j] == p;
      }
    }
  }

  /** Whether a callable declaring `sig` takes the keyword `k`. */
  predicate Accepts(sig: Signature, k: string)
  {
    sig.keywords.Some? || k in sig.params
  }

  /** `_set_kwargs(kwargs, replace)`: with `replace` the stored keywords are
      dropped first; a given keyword is kept only when the signature takes it. */
  function SetKwargs(sig: Signature, stored: map<string, Value>, given: map<string, Value>, replace: bool): (r: map<string, Value>)
    ensures forall k :: k in r <==> (k in given && Accepts(sig, k)) || (!replace && k in stored)
    ensures forall k | k in r :: r[k] == if k in given && Accepts(sig, k) then given[k] else stored[k]
  {
    var base := if replace then map[] else stored;
    if sig.keywords.None? then base + map k | k in given && k in sig.params :: given[k]
    else base + given
  }

  /** Merging the same keywords twice is merging them once. */
  lemma SetKwargsIdempotent(sig: Signature, stored: map<string, Value>, given: map<string, Value>)
    ensures SetKwargs(sig, SetKwargs(sig, stored, given, false), given, false) == SetKwargs(sig, stored, given, false)
  {
  }

  /** A replacing set forgets every earlier merge: only the keywords it is given survive. */
  lemma SetKwargsForgets(sig: Signature, stored: map<string, Value>, earlier: map<string, Value>, given: map<string, Value>)
    ensures SetKwargs(sig, SetKwargs(sig, stored, earlier, false), given, true) == SetKwargs(sig, stored, given, true)
  {
  }

  /** Keywords that pass the filter once pass it unchanged a second time. */
  lemma SetKwargsFiltered(sig: Signature, stored: map<string, Value>, given: map<string, Value>)
    ensures SetKwargs(sig, map[], SetKwargs(sig, stored, given, true), true) == SetKwargs(sig, stored, given, true)
  {
  }

  /** The clean nodes. */
  function CleanSet(cells: map<Path, Cell>): set<Path>
  {
    set p | p in cells && !cells[p].dirty
  }

  /** Cells only ever go from clean to stale, never back. */
  ghost predicate OnlyStales(cells: map<Path, Cell>, cells': map<Path, Cell>)
  {
    && cells'.Keys == cells.Keys
    && forall q | q in cells :: cells'[q] == cells[q] || (!cells[q].dirty && cells'[q] == Stale)
  }

  lemma SubsetCard<T>(a: set<T>, b: set<T>)
    requires a <= b
    ensures |a| <= |b|
    decreases |b|
  {
    if a != {} {
      var x :| x in a;
      SubsetCard(a - {x}, b - {x});
    }
  }

  lemma StalesShrink(cells: map<Path, Cell>, cells': map<Path, Cell>)
    requires OnlyStales(cells, cells')
    ensures |CleanSet(cells')| <= |CleanSet(cells)|
  {
    SubsetCard(CleanSet(cells'), CleanSet(cells));
  }

  lemma StaleOne(cells: map<Path, Cell>, p: Path)
    requires p in cells && !cells[p].dirty
    ensures |CleanSet(cells[p := Stale])| < |CleanSet(cells)|
  {
    assert CleanSet(cells) == CleanSet(cells[p := Stale]) + {p};
  }

  lemma OnlyStalesTransitive(a: map<Path, Cell>, b: map<Path, Cell>, c: map<Path, Cell>)
    requires OnlyStales(a, b) && OnlyStales(b, c)
    ensures OnlyStales(a, c)
  {
  }

  /** `_invalidate`: a dirty node is left alone; a clean one becomes dirty,
      drops its cache, and invalidates its downstream peers in order. */
  function Invalidate(nodes: map<Path, NodeState>, cells: map<Path, Cell>, p: Path): (r: map<Path, Cell>)
    requires Wired(nodes) && cells.Keys == nodes.Keys && p in nodes
    ensures OnlyStales(cells, r)
    ensures r[p].dirty
    ensures cells[p].dirty ==> r == cells
    ensures forall q | q in cells && r[q] != cells[q] :: Reachable(nodes, p, q)
    decreases |CleanSet(cells)|, 0
  {
    if cells[p].dirty then cells
    else
      var c1 := cells[p := Stale];
      StaleOne(cells, p);
      var r := InvalidateAll(nodes, c1, nodes[p].down);
      OnlyStalesTransitive(cells, c1, r);
      StaleBelow(nodes, cells, r, p);
      r
  }

  /** Invalidates the nodes `ds` one after the other. */
  function InvalidateAll(nodes: map<Path, NodeState>, cells: map<Path, Cell>, ds: seq<Path>): (r: map<Path, Cell>)
    requires Wired(nodes) && cells.Keys == nodes.Keys
    requires forall j | 0 <= j < |ds| :: ds[j] in nodes
    ensures OnlyStales(cells, r)
    ensures forall j | 0 <= j < |ds| :: r[ds[j]].dirty
    ensures forall q | q in cells && r[q] != cells[q] :: exists j | 0 <= j < |ds| :: Reachable(nodes, ds[j], q)
    decreases |CleanSet(cells)|, |ds|
  {
    if ds == [] then cells
    else
      var c1 := Invalidate(nodes, cells, ds[0]);
      StalesShrink(cells, c1);
      var r := InvalidateAll(nodes, c1, ds[1..]);
      OnlyStalesTransitive(cells, c1, r);
      assert forall j | 1 <= j < |ds| :: ds[j] == ds[1..][j - 1];
      StaleBelowAll(nodes, cells, c1, r, ds);
      r
  }

  /** Whether `q` lies on a downstream walk from `p` (`p` itself included). */
  ghost predicate Reachable(nodes: map<Path, NodeState>, p: Path, q: Path)
  {
    exists w | Walk(nodes, w) :: w[0] == p && w[|w| - 1] == q
  }

  /** A walk from a downstream peer of `p` extends to a walk from `p`. */
  lemma ReachableStep(nodes: map<Path, NodeState>, p: Path, j: nat, q: Path)
    requires p in nodes && j < |nodes[p].down| && Reachable(nodes, nodes[p].down[j], q)
    ensures Reachable(nodes, p, q)
  {
    var w :| Walk(nodes, w) && w[0] == nodes[p].down[j] && w[|w| - 1] == q;
    var w' := [p] + w;
    assert forall k | 0 <= k < |w| :: w'[k + 1] == w[k];
    assert Walk(nodes, w');
  }

  /** The cells invalidating a clean `p` changes lie downstream of `p`: `p`
      itself, and whatever the pass over its downstream peers changed. */
  lemma StaleBelow(nodes: map<Path, NodeState>, cells: map<Path, Cell>, r: map<Path, Cell>, p: Path)
    requires p in nodes && p in cells && r.Keys == cells.Keys
    requires forall q | q in cells[p := Stale] && r[q] != cells[p := Stale][q] ::
               exists j | 0 <= j < |nodes[p].down| :: Reachable(nodes, nodes[p].down[j], q)
    ensures forall q | q in cells && r[q] != cells[q] :: Reachable(nodes, p, q)
  {
    forall q | q in cells && r[q] != cells[q]
      ensures Reachable(nodes, p, q)
    {
      if q == p {
        assert Walk(nodes, [p]);
      } else {
        var j :| 0 <= j < |nodes[p].down| && Reachable(nodes, nodes[p].down[j], q);
        ReachableStep(nodes, p, j, q);
      }
    }
  }

  /** The cells invalidating `ds` changes lie downstream of one of them. */
  lemma StaleBelowAll(nodes: map<Path, NodeState>, cells: map<Path, Cell>, c1: map<Path, Cell>, r: map<Path, Cell>, ds: seq<Path>)
    requires ds != [] && c1.Keys == cells.Keys && r.Keys == cells.Keys
    requires forall q | q in cells && c1[q] != cells[q] :: Reachable(nodes, ds[0], q)
    requires forall q | q in c1 && r[q] != c1[q] :: exists j | 0 <= j < |ds[1..]| :: Reachable(nodes, ds[1..][j], q)
    ensures forall q | q in cells && r[q] != cells[q] :: exists j | 0 <= j < |ds| :: Reachable(nodes, ds[j], q)
  {
    forall q | q in cells && r[q] != cells[q]
      ensures exists j | 0 <= j < |ds| :: Reachable(nodes, ds[j], q)
    {
      if c1[q] != cells[q] {
        assert Reachable(nodes, ds[0], q);
      } else {
        var j :| 0 <= j < |ds[1..]| && Reachable(nodes, ds[1..][j], q);
        assert ds[1..][j] == ds[j + 1];
      }
    }
  }

  /** Reachability depends only on the downstream links. */
  lemma SameLinksReachable(nodes: map<Path, NodeState>, nodes': map<Path, NodeState>)
    requires nodes'.Keys == nodes.Keys
    requires forall q | q in nodes :: nodes'[q].down == nodes[q].down
    ensures forall p, q | Reachable(nodes, p, q) :: Reachable(nodes', p, q)
  {
    forall p, q | Reachable(nodes, p, q)
      ensures Reachable(nodes', p, q)
    {
      var w :| Walk(nodes, w) && w[0] == p && w[|w| - 1] == q;
      assert Walk(nodes', w);
    }
  }

  /** The short-circuit on already dirty nodes is sound: invalidation keeps
      dirtiness flowing downstream (outside `open`, the nodes still being
      processed further up the recursion). */
  lemma {:induction false} InvalidateClosed(nodes: map<Path, NodeState>, cells: map<Path, Cell>, p: Path, open: set<Path>)
    requires Wired(nodes) && cells.Keys == nodes.Keys && p in nodes
    requires DownClosedExcept(nodes, cells, open)
    ensures DownClosedExcept(nodes, Invalidate(nodes, cells, p), open)
    decreases |CleanSet(cells)|, 0
  {
    if !cells[p].dirty {
      var c1 := cells[p := Stale];
      StaleOne(cells, p);
      assert DownClosedExcept(nodes, c1, open + {p});
      InvalidateAllClosed(nodes, c1, nodes[p].down, open + {p});
    }
  }

  lemma {:induction false} InvalidateAllClosed(nodes: map<Path, NodeState>, cells: map<Path, Cell>, ds: seq<Path>, open: set<Path>)
    requires Wired(nodes) && cells.Keys == nodes.Keys
    requires forall j | 0 <= j < |ds| :: ds[j] in nodes
    requires DownClosedExcept(nodes, cells, open)
    ensures DownClosedExcept(nodes, InvalidateAll(nodes, cells, ds), open)
    decreases |CleanSet(cells)|, |ds|
  {
    if ds != [] {
      var c1 := Invalidate(nodes, cells, ds[0]);
      StalesShrink(cells, c1);
      InvalidateClosed(nodes, cells, ds[0], open);
      InvalidateAllClosed(nodes, c1, ds[1..], open);
    }
  }

  /** A walk along downstream links, from `w[0]` to its last element. */
  ghost predicate Walk(nodes: map<Path, NodeState>, w: seq<Path>)
  {
    && |w| > 0
    && (forall k | 0 <= k < |w| :: w[k] in nodes)
    && (forall k | 0 <= k < |w| - 1 :: w[k + 1] in nodes[w[k]].down)
  }

  /** Under the invariant, everything downstream of a dirty node is dirty. */
  lemma {:induction false} DirtyDownstream(nodes: map<Path, NodeState>, cells: map<Path, Cell>, w: seq<Path>)
    requires Wired(nodes) && cells.Keys == nodes.Keys && DownClosed(nodes, cells)
    requires Walk(nodes, w) && cells[w[0]].dirty
    ensures cells[w[|w| - 1]].dirty
    decreases |w|
  {
    if |w| > 1 {
      var j :| 0 <= j < |nodes[w[0]].down| && nodes[w[0]].down[j] == w[1];
      assert Walk(nodes, w[1..]) by {
        forall k | 0 <= k < |w[1..]| - 1
          ensures w[1..][k + 1] in nodes[w[1..][k]].down
        {
          assert w[1..][k + 1] == w[k + 2] && w[1..][k] == w[k + 1];
        }
      }
      DirtyDownstream(nodes, cells, w[1..]);
    }
  }

  /** Invalidating a node of a coherent instance keeps it coherent, and leaves
      every node downstream of it dirty. */
  lemma InvalidateCoherent(nodes: map<Path, NodeState>, cells: map<Path, Cell>, p: Path)
    requires Wired(nodes) && Linked(nodes) && cells.Keys == nodes.Keys && p in nodes
    requires Coherent(nodes, cells)
    ensures Coherent(nodes, Invalidate(nodes, cells, p))
    ensures forall w | Walk(nodes, w) && w[0] == p :: Invalidate(nodes, cells, p)[w[|w| - 1]].dirty
  {
    var r := Invalidate(nodes, cells, p);
    CoherentIffDownClosed(nodes, cells);
    InvalidateClosed(nodes, cells, p, {});
    CoherentIffDownClosed(nodes, r);
    forall w | Walk(nodes, w) && w[0] == p
      ensures r[w[|w| - 1]].dirty
    {
      DirtyDownstream(nodes, r, w);
    }
  }

  /** `NodeState._set_params(args, kwargs)` (reached through `set`): the
      positional arguments are replaced, the keywords replaced through the
      filter, and the node invalidated. */
  function NodeSet(m: Machine, p: Path, args: seq<Value>, kwargs: map<string, Value>): (r: Machine)
    requires Valid(m) && p in m.nodes
    ensures Valid(r) && r.groups == m.groups && r.calls == m.calls
    ensures r.nodes.Keys == m.nodes.Keys
    ensures r.nodes[p].args == args
    ensures r.nodes[p].kwargs == SetKwargs(m.nodes[p].func.sig, m.nodes[p].kwargs, kwargs, true)
    ensures forall k :: k in r.nodes[p].kwargs <==> k in kwargs && Accepts(m.nodes[p].func.sig, k)
    ensures r.nodes[p] == m.nodes[p].(args := r.nodes[p].args, kwargs := r.nodes[p].kwargs)
    ensures forall q | q in m.nodes && q != p :: r.nodes[q] == m.nodes[q]
    ensures OnlyStales(m.cells, r.cells) && r.cells[p].dirty
    ensures forall q | q in m.cells && r.cells[q] != m.cells[q] :: Reachable(m.nodes, p, q)
  {
    var st := m.nodes[p];
    var nodes := m.nodes[p := st.(args := args, kwargs := SetKwargs(st.func.sig, st.kwargs, kwargs, true))];
    Retuned(m.nodes, nodes);
    SameLinksReachable(nodes, m.nodes);
    m.(nodes := nodes, cells := Invalidate(nodes, m.cells, p))
  }

  /** `NodeState.update(**kwargs)`: the keywords are merged through the
      filter, the positional arguments kept, and the node invalidated. */
  function NodeUpdate(m: Machine, p: Path, kwargs: map<string, Value>): (r: Machine)
    requires Valid(m) && p in m.nodes
    ensures Valid(r) && r.groups == m.groups && r.calls == m.calls
    ensures r.nodes.Keys == m.nodes.Keys
    ensures r.nodes[p].kwargs == SetKwargs(m.nodes[p].func.sig, m.nodes[p].kwargs, kwargs, false)
    ensures forall k | k in m.nodes[p].kwargs :: k in r.nodes[p].kwargs
    ensures r.nodes[p] == m.nodes[p].(kwargs := r.nodes[p].kwargs)
    ensures forall q | q in m.nodes && q != p :: r.nodes[q] == m.nodes[q]
    ensures OnlyStales(m.cells, r.cells) && r.cells[p].dirty
    ensures forall q | q in m.cells && r.cells[q] != m.cells[q] :: Reachable(m.nodes, p, q)
  {
    var st := m.nodes[p];
    var nodes := m.nodes[p := st.(kwargs := SetKwargs(st.func.sig, st.kwargs, kwargs, false))];
    Retuned(m.nodes, nodes);
    SameLinksReachable(nodes, m.nodes);
    m.(nodes := nodes, cells := Invalidate(nodes, m.cells, p))
  }

  /** Changing nodes' arguments leaves the arena's links as they were. */
  lemma Retuned(nodes: map<Path, NodeState>, nodes': map<Path, NodeState>)
    requires Wired(nodes) && Linked(nodes)
    requires nodes'.Keys == nodes.Keys
    requires forall q | q in nodes :: nodes'[q].up == nodes[q].up && nodes'[q].down == nodes[q].down
    ensures Wired(nodes') && Linked(nodes')
  {
    forall q, j | q in nodes' && 0 <= j < |nodes'[q].down|
      ensures q in Feeders(nodes'[nodes'[q].down[j]])
    {
      assert Feeders(nodes'[nodes'[q].down[j]]) == Feeders(nodes[nodes[q].down[j]]);
    }
  }

  /** After `set` or `update` on a coherent instance it is still coherent, and
      every node downstream of the one changed is dirty. */
  lemma NodeSetCoherent(m: Machine, p: Path, args: seq<Value>, kwargs: map<string, Value>)
    requires Valid(m) && p in m.nodes && Coherent(m.nodes, m.cells)
    ensures Coherent(NodeSet(m, p, args, kwargs).nodes, NodeSet(m, p, args, kwargs).cells)
    ensures forall w | Walk(m.nodes, w) && w[0] == p :: NodeSet(m, p, args, kwargs).cells[w[|w| - 1]].dirty
  {
    var r := NodeSet(m, p, args, kwargs);
    SameLinksSameWalks(m.nodes, r.nodes);
    SameLinksCoherent(m.nodes, r.nodes, m.cells);
    InvalidateCoherent(r.nodes, m.cells, p);
  }

  lemma NodeUpdateCoherent(m: Machine, p: Path, kwargs: map<string, Value>)
    requires Valid(m) && p in m.nodes && Coherent(m.nodes, m.cells)
    ensures Coherent(NodeUpdate(m, p, kwargs).nodes, NodeUpdate(m, p, kwargs).cells)
    ensures forall w | Walk(m.nodes, w) && w[0] == p :: NodeUpdate(m, p, kwargs).cells[w[|w| - 1]].dirty
  {
    var r := NodeUpdate(m, p, kwargs);
    SameLinksSameWalks(m.nodes, r.nodes);
    SameLinksCoherent(m.nodes, r.nodes, m.cells);
    InvalidateCoherent(r.nodes, m.cells, p);
  }

  lemma SameLinksSameWalks(nodes: map<Path, NodeState>, nodes': map<Path, NodeState>)
    requires nodes'.Keys == nodes.Keys
    requires forall q | q in nodes :: nodes'[q].down == nodes[q].down
    ensures forall w :: Walk(nodes, w) ==> Walk(nodes', w)
  {
  }

  lemma SameLinksCoherent(nodes: map<Path, NodeState>, nodes': map<Path, NodeState>, cells: map<Path, Cell>)
    requires Wired(nodes) && Wired(nodes') && cells.Keys == nodes.Keys && nodes'.Keys == nodes.Keys
    requires forall q | q in nodes :: nodes'[q].up == nodes[q].up
    requires Coherent(nodes, cells)
    ensures Coherent(nodes', cells)
  {
  }
}
