/**
 Evaluation of a running instance (pypeline/context.py): the cached read
 `val` and the direct call of a node, both pulling their upstream peers'
 cached results first.  User callables are one pure function handed in as a
 parameter; every invocation is recorded in the instance's call log.
 */
module Evaluation {
  import opened Common
  import opened Runtime

  /** The user callables: what calling a callable with given positional and
      keyword arguments returns. */
  type Apply = (Func, seq<Value>, map<string, Value>) -> Value

  /** Arguments collected so far for a call. */
  datatype Bundle = Bundle(args: seq<Value>, kwargs: map<string, Value>)

  /** A result together with the instance after producing it. */
  datatype Step = Step(value: Value, m: Machine)

  /** Upstream results gathered for a call, with the instance after gathering them. */
  datatype Gathered = Gathered(bundle: Bundle, m: Machine)

  /** One round of `_eval`'s loop: a `params` result is spread into the
      positional and keyword arguments, any other result appended as one
      positional argument. */
  function Spread(acc: Bundle, v: Value): (r: Bundle)
    ensures v.Params? ==> r.args == acc.args + v.args && r.kwargs == acc.kwargs + v.kwargs
    ensures !v.Params? ==> r == Bundle(acc.args + [v], acc.kwargs)
  {
    if v.Params? then Bundle(acc.args + v.args, acc.kwargs + v.kwargs)
    else Bundle(acc.args + [v], acc.kwargs)
  }

  /** `_eval`'s loop over the upstream results `vs`, in order. */
  function Assemble(vs: seq<Value>, acc: Bundle): (r: Bundle)
    ensures acc.args <= r.args
    ensures acc.kwargs.Keys <= r.kwargs.Keys
    decreases |vs|
  {
    if vs == [] then acc
    else
      var r := Assemble(vs[1..], Spread(acc, vs[0]));
      assert vs[0].Params? ==> acc.args + vs[0].args <= r.args;
      r
  }

  /** Whether none of `vs` is a `params` result carrying keyword `k`. */
  predicate Untouched(vs: seq<Value>, k: string)
  {
    forall i | 0 <= i < |vs| :: !(vs[i].Params? && k in vs[i].kwargs)
  }

  /** A stored or caller keyword no upstream `params` result carries keeps its value. */
  lemma {:induction false} AssembleKeeps(vs: seq<Value>, acc: Bundle, k: string)
    requires k in acc.kwargs && Untouched(vs, k)
    ensures Assemble(vs, acc).kwargs[k] == acc.kwargs[k]
    decreases |vs|
  {
    if vs != [] {
      assert !(vs[0].Params? && k in vs[0].kwargs);
      assert Untouched(vs[1..], k) by {
        forall i | 0 <= i < |vs[1..]| ensures !(vs[1..][i].Params? && k in vs[1..][i].kwargs) {
          assert vs[1..][i] == vs[i + 1];
        }
      }
      AssembleKeeps(vs[1..], Spread(acc, vs[0]), k);
    }
  }

  /** Without any `params` result the loop just appends the results in order. */
  lemma {:induction false} AssemblePlain(vs: seq<Value>, acc: Bundle)
    requires forall i | 0 <= i < |vs| :: !vs[i].Params?
    ensures Assemble(vs, acc) == Bundle(acc.args + vs, acc.kwargs)
    decreases |vs|
  {
    if vs != [] {
      assert forall i | 0 <= i < |vs[1..]| :: vs[1..][i] == vs[i + 1];
      AssemblePlain(vs[1..], Spread(acc, vs[0]));
      assert acc.args + [vs[0]] + vs[1..] == acc.args + vs;
    }
  }

  /** Assembling a concatenation assembles the parts one after the other. */
  lemma {:induction false} AssembleAppend(xs: seq<Value>, ys: seq<Value>, acc: Bundle)
    ensures Assemble(xs + ys, acc) == Assemble(ys, Assemble(xs, acc))
    decreases |xs|
  {
    if xs != [] {
      assert (xs + ys)[0] == xs[0] && (xs + ys)[1..] == xs[1..] + ys;
      AssembleAppend(xs[1..], ys, Spread(acc, xs[0]));
    } else {
      assert xs + ys == ys;
    }
  }

  /** A keyword spread in by the last upstream `params` result that carries
      it wins over the stored and caller keywords. */
  lemma AssembleLastWins(vs: seq<Value>, acc: Bundle, k: string)
    requires |vs| > 0 && vs[|vs| - 1].Params? && k in vs[|vs| - 1].kwargs
    ensures k in Assemble(vs, acc).kwargs && Assemble(vs, acc).kwargs[k] == vs[|vs| - 1].kwargs[k]
  {
    AssembleAppend(vs[..|vs| - 1], [vs[|vs| - 1]], acc);
    assert vs[..|vs| - 1] + [vs[|vs| - 1]] == vs;
  }

  /** What an upstream peer contributes, read from the cells: the peer's
      cache, or for a parameter-targeting peer a `params` bundle holding the
      cache under that parameter's name. */
  function PeerValue(peer: Peer, cells: map<Path, Cell>): (v: Value)
    requires peer.node in cells
    ensures peer.Direct? ==> v == cells[peer.node].cache
    ensures peer.Targeted? ==> v.Params? && v.args == [] && v.kwargs.Keys == {peer.param}
                               && v.kwargs[peer.param] == cells[peer.node].cache
  {
    match peer
    case Direct(q) => cells[q].cache
    case Targeted(prm, q) => Params([], map[prm := cells[q].cache])
  }

  /** The contributions of `ups`, in order. */
  function Incoming(ups: seq<Peer>, cells: map<Path, Cell>): (r: seq<Value>)
    requires forall i | 0 <= i < |ups| :: ups[i].node in cells
    ensures |r| == |ups|
    ensures forall i | 0 <= i < |ups| :: r[i] == PeerValue(ups[i], cells)
    decreases |ups|
  {
    if ups == [] then [] else [PeerValue(ups[0], cells)] + Incoming(ups[1..], cells)
  }

  /** What calling node `p` with `args` and `kwargs` computes from the
      current caches of its upstream peers. */
  function Outcome(nodes: map<Path, NodeState>, cells: map<Path, Cell>, p: Path, args: seq<Value>,
                   kwargs: map<string, Value>, f: Apply): Value
    requires Wired(nodes) && cells.Keys == nodes.Keys && p in nodes
  {
    var b := Assemble(Incoming(nodes[p].up, cells), Bundle([], kwargs));
    f(nodes[p].func, b.args + args, b.kwargs)
  }

  /** What evaluating node `p` with its stored arguments computes now. */
  function Denote(nodes: map<Path, NodeState>, cells: map<Path, Cell>, p: Path, f: Apply): Value
    requires Wired(nodes) && cells.Keys == nodes.Keys && p in nodes
  {
    Outcome(nodes, cells, p, nodes[p].args, nodes[p].kwargs, f)
  }

  /** Every clean cache holds what evaluating its node now would give. */
  ghost predicate Faithful(nodes: map<Path, NodeState>, cells: map<Path, Cell>, f: Apply)
    requires Wired(nodes) && cells.Keys == nodes.Keys
  {
    forall p | p in nodes && !cells[p].dirty :: cells[p].cache == Denote(nodes, cells, p, f)
  }

  /** An acyclicity witness: every upstream peer ranks strictly below its node. */
  ghost predicate Ranked(nodes: map<Path, NodeState>, rank: map<Path, nat>)
  {
    && (forall p | p in nodes :: p in rank)
    && (forall p, i | p in nodes && 0 <= i < |nodes[p].up| :: nodes[p].up[i].node in rank && rank[nodes[p].up[i].node] < rank[p])
  }

  /** Evaluation only ever cleans cells: a clean cell keeps its cache, a dirty
      one stays as it is or becomes clean. */
  ghost predicate Settles(cells: map<Path, Cell>, cells': map<Path, Cell>)
  {
    && cells'.Keys == cells.Keys
    && forall q | q in cells :: cells'[q] == cells[q] || (cells[q].dirty && !cells'[q].dirty)
  }

  /** Evaluating below rank `bound` leaves the cells ranked at or above it alone. */
  ghost predicate KeepsFrom(cells: map<Path, Cell>, cells': map<Path, Cell>, rank: map<Path, nat>, bound: nat)
    requires cells'.Keys == cells.Keys
  {
    forall q | q in cells && q in rank && rank[q] >= bound :: cells'[q] == cells[q]
  }

  /** The part of an instance that evaluation never changes. */
  ghost predicate SameShape(m: Machine, m': Machine)
  {
    m'.nodes == m.nodes && m'.groups == m.groups && m.calls <= m'.calls && Settles(m.cells, m'.cells)
  }

  lemma SettlesTransitive(a: map<Path, Cell>, b: map<Path, Cell>, c: map<Path, Cell>)
    requires Settles(a, b) && Settles(b, c)
    ensures Settles(a, c)
  {
  }

  /** Contributions depend only on the cells of the peers they come from. */
  lemma IncomingFrame(ups: seq<Peer>, cells: map<Path, Cell>, cells': map<Path, Cell>)
    requires forall i | 0 <= i < |ups| :: ups[i].node in cells && ups[i].node in cells'
    requires forall i | 0 <= i < |ups| :: cells'[ups[i].node] == cells[ups[i].node]
    ensures Incoming(ups, cells') == Incoming(ups, cells)
  {
    assert forall i | 0 <= i < |ups| :: Incoming(ups, cells')[i] == Incoming(ups, cells)[i];
  }

  /** `val` (`_eval_cached`): a clean node returns its cache and calls
      nothing; a dirty one is evaluated with its stored arguments and a copy
      of its stored keywords, the result cached and the node marked clean. */
  function EvalCached(m: Machine, p: Path, f: Apply, ghost rank: map<Path, nat>): (r: Step)
    requires Valid(m) && Ranked(m.nodes, rank) && p in m.nodes
    ensures SameShape(m, r.m)
    ensures !r.m.cells[p].dirty && r.m.cells[p].cache == r.value
    ensures !m.cells[p].dirty ==> r == Step(m.cells[p].cache, m)
    ensures m.cells[p].dirty ==> |r.m.calls| > |m.calls| && r.m.calls[|r.m.calls| - 1] == p
    ensures m.cells[p].dirty ==> r.value == Denote(m.nodes, r.m.cells, p, f)
    ensures KeepsFrom(m.cells, r.m.cells, rank, rank[p] + 1)
    decreases rank[p], 2
  {
    if !m.cells[p].dirty then Step(m.cells[p].cache, m)
    else
      var e := Eval(m, p, m.nodes[p].args, m.nodes[p].kwargs, f, rank);
      var cells := e.m.cells[p := Cell(false, e.value)];
      IncomingFrame(m.nodes[p].up, e.m.cells, cells);
      Step(e.value, e.m.(cells := cells))
  }

  /** The direct call (`node(*args, **kwargs)`, `_eval`): the upstream peers
      are read through `val`, then the callable runs on their contributions
      followed by the caller's arguments.  The node's own cell is untouched. */
  function Eval(m: Machine, p: Path, args: seq<Value>, kwargs: map<string, Value>, f: Apply,
                ghost rank: map<Path, nat>): (r: Step)
    requires Valid(m) && Ranked(m.nodes, rank) && p in m.nodes
    ensures SameShape(m, r.m)
    ensures |r.m.calls| > |m.calls| && r.m.calls[|r.m.calls| - 1] == p
    ensures r.value == Outcome(m.nodes, r.m.cells, p, args, kwargs, f)
    ensures forall i | 0 <= i < |m.nodes[p].up| :: !r.m.cells[m.nodes[p].up[i].node].dirty
    ensures KeepsFrom(m.cells, r.m.cells, rank, rank[p])
    decreases rank[p], 1
  {
    var g := EvalPeers(m, p, 0, Bundle([], kwargs), f, rank);
    assert m.nodes[p].up[0..] == m.nodes[p].up;
    var v := f(m.nodes[p].func, g.bundle.args + args, g.bundle.kwargs);
    Step(v, g.m.(calls := g.m.calls + [p]))
  }

  /** `_eval`'s loop from the `i`-th upstream peer on. */
  function EvalPeers(m: Machine, p: Path, i: nat, acc: Bundle, f: Apply, ghost rank: map<Path, nat>): (r: Gathered)
    requires Valid(m) && Ranked(m.nodes, rank) && p in m.nodes && i <= |m.nodes[p].up|
    ensures SameShape(m, r.m)
    ensures r.bundle == Assemble(Incoming(m.nodes[p].up[i..], r.m.cells), acc)
    ensures forall j | i <= j < |m.nodes[p].up| :: !r.m.cells[m.nodes[p].up[j].node].dirty
    ensures KeepsFrom(m.cells, r.m.cells, rank, rank[p])
    decreases rank[p], 0, |m.nodes[p].up| - i
  {
    var ups := m.nodes[p].up;
    if i == |ups| then Gathered(acc, m)
    else
      var s := EvalCached(m, ups[i].node, f, rank);
      var g := EvalPeers(s.m, p, i + 1, Spread(acc, PeerValue(ups[i], s.m.cells)), f, rank);
      SettlesTransitive(m.cells, s.m.cells, g.m.cells);
      assert ups[i..][1..] == ups[i + 1..];
      assert PeerValue(ups[i], s.m.cells) == PeerValue(ups[i], g.m.cells);
      g
  }

  /** Evaluation keeps the memoisation invariant: a clean node still has only
      clean upstream peers. */
  lemma {:induction false} EvalCachedCoherent(m: Machine, p: Path, f: Apply, rank: map<Path, nat>)
    requires Valid(m) && Ranked(m.nodes, rank) && p in m.nodes && Coherent(m.nodes, m.cells)
    ensures Coherent(m.nodes, EvalCached(m, p, f, rank).m.cells)
    decreases rank[p], 2
  {
    if m.cells[p].dirty {
      var e := Eval(m, p, m.nodes[p].args, m.nodes[p].kwargs, f, rank);
      EvalCoherent(m, p, m.nodes[p].args, m.nodes[p].kwargs, f, rank);
      var cells := e.m.cells[p := Cell(false, e.value)];
      forall q, i | q in m.nodes && 0 <= i < |m.nodes[q].up| && !cells[q].dirty
        ensures !cells[m.nodes[q].up[i].node].dirty
      {
        if q != p {
          assert !e.m.cells[m.nodes[q].up[i].node].dirty;
        }
      }
    }
  }

  lemma {:induction false} EvalCoherent(m: Machine, p: Path, args: seq<Value>, kwargs: map<string, Value>, f: Apply,
                                        rank: map<Path, nat>)
    requires Valid(m) && Ranked(m.nodes, rank) && p in m.nodes && Coherent(m.nodes, m.cells)
    ensures Coherent(m.nodes, Eval(m, p, args, kwargs, f, rank).m.cells)
    decreases rank[p], 1
  {
    EvalPeersCoherent(m, p, 0, Bundle([], kwargs), f, rank);
  }

  lemma {:induction false} EvalPeersCoherent(m: Machine, p: Path, i: nat, acc: Bundle, f: Apply, rank: map<Path, nat>)
    requires Valid(m) && Ranked(m.nodes, rank) && p in m.nodes && i <= |m.nodes[p].up|
    requires Coherent(m.nodes, m.cells)
    ensures Coherent(m.nodes, EvalPeers(m, p, i, acc, f, rank).m.cells)
    decreases rank[p], 0, |m.nodes[p].up| - i
  {
    var ups := m.nodes[p].up;
    if i < |ups| {
      var s := EvalCached(m, ups[i].node, f, rank);
      EvalCachedCoherent(m, ups[i].node, f, rank);
      EvalPeersCoherent(s.m, p, i + 1, Spread(acc, PeerValue(ups[i], s.m.cells)), f, rank);
    }
  }

  /** A clean node whose feeders' cells did not change still denotes the same value. */
  lemma DenoteFrame(nodes: map<Path, NodeState>, cells: map<Path, Cell>, cells': map<Path, Cell>, p: Path, f: Apply)
    requires Wired(nodes) && cells.Keys == nodes.Keys && cells'.Keys == nodes.Keys && p in nodes
    requires forall i | 0 <= i < |nodes[p].up| :: cells'[nodes[p].up[i].node] == cells[nodes[p].up[i].node]
    ensures Denote(nodes, cells', p, f) == Denote(nodes, cells, p, f)
  {
    IncomingFrame(nodes[p].up, cells, cells');
  }

  /** Evaluation keeps every clean cache faithful to what its node computes. */
  lemma {:induction false} EvalCachedFaithful(m: Machine, p: Path, f: Apply, rank: map<Path, nat>)
    requires Valid(m) && Ranked(m.nodes, rank) && p in m.nodes
    requires Coherent(m.nodes, m.cells) && Faithful(m.nodes, m.cells, f)
    ensures Faithful(m.nodes, EvalCached(m, p, f, rank).m.cells, f)
    decreases rank[p], 2
  {
    if m.cells[p].dirty {
      var e := Eval(m, p, m.nodes[p].args, m.nodes[p].kwargs, f, rank);
      EvalCoherent(m, p, m.nodes[p].args, m.nodes[p].kwargs, f, rank);
      EvalFaithful(m, p, m.nodes[p].args, m.nodes[p].kwargs, f, rank);
      var cells := EvalCached(m, p, f, rank).m.cells;
      assert cells == e.m.cells[p := Cell(false, e.value)];
      forall q | q in m.nodes && !cells[q].dirty
        ensures cells[q].cache == Denote(m.nodes, cells, q, f)
      {
        if q != p {
          forall i | 0 <= i < |m.nodes[q].up|
            ensures cells[m.nodes[q].up[i].node] == e.m.cells[m.nodes[q].up[i].node]
          {
            assert !e.m.cells[m.nodes[q].up[i].node].dirty;
          }
          DenoteFrame(m.nodes, e.m.cells, cells, q, f);
        }
      }
    }
  }

  lemma {:induction false} EvalFaithful(m: Machine, p: Path, args: seq<Value>, kwargs: map<string, Value>, f: Apply,
                                        rank: map<Path, nat>)
    requires Valid(m) && Ranked(m.nodes, rank) && p in m.nodes
    requires Coherent(m.nodes, m.cells) && Faithful(m.nodes, m.cells, f)
    ensures Faithful(m.nodes, Eval(m, p, args, kwargs, f, rank).m.cells, f)
    decreases rank[p], 1
  {
    EvalPeersFaithful(m, p, 0, Bundle([], kwargs), f, rank);
  }

  lemma {:induction false} EvalPeersFaithful(m: Machine, p: Path, i: nat, acc: Bundle, f: Apply, rank: map<Path, nat>)
    requires Valid(m) && Ranked(m.nodes, rank) && p in m.nodes && i <= |m.nodes[p].up|
    requires Coherent(m.nodes, m.cells) && Faithful(m.nodes, m.cells, f)
    ensures Faithful(m.nodes, EvalPeers(m, p, i, acc, f, rank).m.cells, f)
    decreases rank[p], 0, |m.nodes[p].up| - i
  {
    var ups := m.nodes[p].up;
    if i < |ups| {
      var s := EvalCached(m, ups[i].node, f, rank);
      EvalCachedCoherent(m, ups[i].node, f, rank);
      EvalCachedFaithful(m, ups[i].node, f, rank);
      EvalPeersFaithful(s.m, p, i + 1, Spread(acc, PeerValue(ups[i], s.m.cells)), f, rank);
    }
  }

  /** On a coherent, faithful instance a cached read returns exactly what
      evaluating the node afresh would, whether or not the cache was hit. */
  lemma CachedIsFresh(m: Machine, p: Path, f: Apply, rank: map<Path, nat>)
    requires Valid(m) && Ranked(m.nodes, rank) && p in m.nodes
    requires Faithful(m.nodes, m.cells, f)
    ensures EvalCached(m, p, f, rank).value == Denote(m.nodes, EvalCached(m, p, f, rank).m.cells, p, f)
  {
  }

  /** Reading a node twice calls nothing the second time and returns the same value. */
  lemma ReadTwice(m: Machine, p: Path, f: Apply, rank: map<Path, nat>)
    requires Valid(m) && Ranked(m.nodes, rank) && p in m.nodes
    ensures var s := EvalCached(m, p, f, rank);
            EvalCached(s.m, p, f, rank) == s
  {
  }

  /** Whether the rank witness fits is the only thing evaluation asks of it:
      any two witnesses give the same result. */
  lemma {:induction false} EvalCachedRankFree(m: Machine, p: Path, f: Apply, rank: map<Path, nat>, rank': map<Path, nat>)
    requires Valid(m) && Ranked(m.nodes, rank) && Ranked(m.nodes, rank') && p in m.nodes
    ensures EvalCached(m, p, f, rank) == EvalCached(m, p, f, rank')
    decreases rank[p], 2
  {
    if m.cells[p].dirty {
      EvalRankFree(m, p, m.nodes[p].args, m.nodes[p].kwargs, f, rank, rank');
    }
  }

  lemma {:induction false} EvalRankFree(m: Machine, p: Path, args: seq<Value>, kwargs: map<string, Value>, f: Apply,
                                        rank: map<Path, nat>, rank': map<Path, nat>)
    requires Valid(m) && Ranked(m.nodes, rank) && Ranked(m.nodes, rank') && p in m.nodes
    ensures Eval(m, p, args, kwargs, f, rank) == Eval(m, p, args, kwargs, f, rank')
    decreases rank[p], 1
  {
    EvalPeersRankFree(m, p, 0, Bundle([], kwargs), f, rank, rank');
  }

  lemma {:induction false} EvalPeersRankFree(m: Machine, p: Path, i: nat, acc: Bundle, f: Apply,
                                             rank: map<Path, nat>, rank': map<Path, nat>)
    requires Valid(m) && Ranked(m.nodes, rank) && Ranked(m.nodes, rank') && p in m.nodes && i <= |m.nodes[p].up|
    ensures EvalPeers(m, p, i, acc, f, rank) == EvalPeers(m, p, i, acc, f, rank')
    decreases rank[p], 0, |m.nodes[p].up| - i
  {
    var ups := m.nodes[p].up;
    if i < |ups| {
      var s := EvalCached(m, ups[i].node, f, rank);
      EvalCachedRankFree(m, ups[i].node, f, rank, rank');
      EvalPeersRankFree(s.m, p, i + 1, Spread(acc, PeerValue(ups[i], s.m.cells)), f, rank, rank');
    }
  }
}
