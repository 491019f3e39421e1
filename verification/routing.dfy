/**
 Parameter routing on a running instance (pypeline/context.py, `NodeGroup`):
 `set(**kwargs)` on a group splits the keywords into specific entries, which
 name a direct child of the group, and global ones, which do not.  Globals are
 merged into every node below the group; specific entries then set a child
 node's parameters or descend into a child group.
 */
module Routing {
  import opened Common
  import opened Runtime

  /** Whether `key` names a direct child (node or group) of group `g`. */
  predicate IsChild(m: Machine, g: Path, key: string)
  {
    g + [key] in m.nodes || g + [key] in m.groups
  }

  /** The nodes in the subtree of group `g`. */
  function Descendants(m: Machine, g: Path): (r: set<Path>)
    ensures forall q :: q in r <==> q in m.nodes && Under(g, q) && |q| > |g|
  {
    set q | q in m.nodes && Under(g, q) && |q| > |g|
  }

  /** The elements of a finite set in some order; Python visits a group's
      items in dictionary order, which the engine does not fix. */
  ghost function Enumerate(s: set<Path>): (r: seq<Path>)
    ensures |r| == |s|
    ensures forall i | 0 <= i < |r| :: r[i] in s
    ensures forall q | q in s :: q in r
    decreases |s|
  {
    if s == {} then []
    else
      var x :| x in s;
      var rest := Enumerate(s - {x});
      assert forall q | q in s && q != x :: q in rest;
      [x] + rest
  }

  /** Every node in `below` merges the keywords `global` it accepts. */
  function MergeGlobals(nodes: map<Path, NodeState>, below: set<Path>, global: map<string, Value>): (r: map<Path, NodeState>)
    ensures r.Keys == nodes.Keys
    ensures forall q | q in nodes && q in below ::
              r[q] == nodes[q].(kwargs := SetKwargs(nodes[q].func.sig, nodes[q].kwargs, global, false))
    ensures forall q | q in nodes && q !in below :: r[q] == nodes[q]
  {
    map q | q in nodes ::
      if q in below then nodes[q].(kwargs := SetKwargs(nodes[q].func.sig, nodes[q].kwargs, global, false))
      else nodes[q]
  }

  /** Invalidating every node of `below` leaves each of them dirty. */
  lemma InvalidateEach(nodes: map<Path, NodeState>, cells: map<Path, Cell>, below: set<Path>, order: seq<Path>)
    requires Wired(nodes) && cells.Keys == nodes.Keys && below <= nodes.Keys
    requires forall i | 0 <= i < |order| :: order[i] in below
    requires forall q | q in below :: q in order
    ensures forall q | q in below :: InvalidateAll(nodes, cells, order)[q].dirty
  {
    forall q | q in below
      ensures InvalidateAll(nodes, cells, order)[q].dirty
    {
      var j :| 0 <= j < |order| && order[j] == q;
    }
  }

  /** `_set_global_params(global)` on group `g`: every node below the group
      merges the global keywords it accepts and is invalidated. */
  ghost function Broadcast(m: Machine, g: Path, global: map<string, Value>): (r: Machine)
    requires Valid(m)
    ensures Valid(r) && r.groups == m.groups && r.calls == m.calls && r.nodes.Keys == m.nodes.Keys
    ensures r.nodes == MergeGlobals(m.nodes, Descendants(m, g), global)
    ensures OnlyStales(m.cells, r.cells)
    ensures forall q | q in Descendants(m, g) :: r.cells[q].dirty
    ensures forall q | q in m.cells && r.cells[q] != m.cells[q] :: exists d | d in Descendants(m, g) :: Reachable(m.nodes, d, q)
  {
    var below := Descendants(m, g);
    var nodes := MergeGlobals(m.nodes, below, global);
    Retuned(m.nodes, nodes);
    SameLinksReachable(nodes, m.nodes);
    var order := Enumerate(below);
    InvalidateEach(nodes, m.cells, below, order);
    m.(nodes := nodes, cells := InvalidateAll(nodes, m.cells, order))
  }

  /** Whether entry `(key, v)` of a specific parameter set fits group `g`: a
      `params` bundle must name a child node, a keyword mapping a child group
      whose entries fit in turn. */
  ghost predicate Fits(nodes: set<Path>, groups: set<Path>, g: Path, key: string, v: Value)
    decreases v
  {
    match v
    case Params(_, _) => g + [key] in nodes
    case Dict(es) =>
      && g + [key] !in nodes && g + [key] in groups
      && forall i | 0 <= i < |es| :: Fits(nodes, groups, g + [key], es[i].0, es[i].1)
    case _ => false
  }

  /** The keys of a keyword list. */
  function KeysOf(entries: seq<(string, Value)>): (r: set<string>)
    ensures forall i | 0 <= i < |entries| :: entries[i].0 in r
    ensures forall k | k in r :: exists i | 0 <= i < |entries| :: entries[i].0 == k
  {
    set i | 0 <= i < |entries| :: entries[i].0
  }

  /** A keyword list built from a Python dictionary names every key once. */
  predicate DistinctKeys(entries: seq<(string, Value)>)
  {
    forall i, j | 0 <= i < j < |entries| :: entries[i].0 != entries[j].0
  }

  /** Whether node `q` lies outside the subtrees of `g`'s children named in `keys`. */
  predicate Outside(g: Path, keys: set<string>, q: Path)
  {
    |q| <= |g| || q[..|g|] != g || q[|g|] !in keys
  }

  /** What routing may change: node arguments and keywords, and cells only by
      going stale; the callables, the links and the groups stay. */
  ghost predicate Retunes(m: Machine, m': Machine)
  {
    && Valid(m')
    && m'.nodes.Keys == m.nodes.Keys && m'.groups == m.groups && m'.calls == m.calls
    && (forall q | q in m.nodes :: m'.nodes[q].func == m.nodes[q].func && m'.nodes[q].name == m.nodes[q].name
                                  && m'.nodes[q].up == m.nodes[q].up && m'.nodes[q].down == m.nodes[q].down)
    && OnlyStales(m.cells, m'.cells)
  }

  lemma RetunesTransitive(a: Machine, b: Machine, c: Machine)
    requires Retunes(a, b) && Retunes(b, c)
    ensures Retunes(a, c)
  {
  }

  /** Setting one node's arguments retunes the machine. */
  lemma NodeSetRetunes(m: Machine, p: Path, args: seq<Value>, kwargs: map<string, Value>)
    requires Valid(m) && p in m.nodes
    ensures Retunes(m, NodeSet(m, p, args, kwargs))
  {
  }

  /** `_set_params_spec(entries, global)` on group `g`, entries in order: a
      `params` bundle sets a child node's arguments and, over the globals,
      its keywords; a keyword mapping descends into a child group; any other
      value is refused. */
  ghost function SetSpec(m: Machine, g: Path, top: Value, entries: seq<(string, Value)>,
                         global: map<string, Value>): (r: Result<Machine>)
    requires Valid(m)
    requires forall i | 0 <= i < |entries| :: entries[i].1 < top
    ensures r.Ok? ==> Retunes(m, r.value)
    decreases top, |entries|
  {
    if entries == [] then Ok(m)
    else
      var key := entries[0].0;
      var v := entries[0].1;
      var c := g + [key];
      var rest := entries[1..];
      assert forall i | 0 <= i < |rest| :: rest[i] == entries[i + 1];
      match v
      case Params(args, kwargs) =>
        if c in m.nodes then
          var m1 := NodeSet(m, c, args, global + kwargs);
          NodeSetRetunes(m, c, args, global + kwargs);
          var r := SetSpec(m1, g, top, rest, global);
          if r.Ok? then RetunesTransitive(m, m1, r.value); r else r
        else if c in m.groups then Err(BadCall)
        else Err(NotFound)
      case Dict(es) =>
        if c in m.nodes then Err(MissingAttribute)
        else if c in m.groups then
          match SetSpec(m, c, v, es, global)
          case Err(e) => Err(e)
          case Ok(m1) =>
            var r := SetSpec(m1, g, top, rest, global);
            if r.Ok? then RetunesTransitive(m, m1, r.value); r else r
        else Err(NotFound)
      case _ => Err(ParamSpecError)
  }

  /** A keyword list built from a Python dictionary in which every nested
      mapping is itself a dictionary: each level names every key once. */
  ghost predicate KeyedOnce(v: Value)
    decreases v
  {
    match v
    case Dict(es) => DistinctKeys(es) && forall i | 0 <= i < |es| :: KeyedOnce(es[i].1)
    case _ => true
  }

  /** `KeyedOnce` for the entries of a keyword list. */
  ghost predicate KeyedList(entries: seq<(string, Value)>)
  {
    DistinctKeys(entries) && forall i | 0 <= i < |entries| :: KeyedOnce(entries[i].1)
  }

  /** Whether routing value `v` aimed at path `c` sets node `q`: a bundle sets
      `c` itself, a mapping whatever its entries set below `c`. */
  ghost predicate Reaches(c: Path, v: Value, q: Path)
    decreases v
  {
    match v
    case Params(_, _) => q == c
    case Dict(es) => exists i | 0 <= i < |es| :: Reaches(c + [es[i].0], es[i].1, q)
    case _ => false
  }

  /** Routing value `v` aimed at path `c` took effect: a bundle's node holds
      the bundle's arguments and its keywords laid over the globals and
      filtered, so a specific keyword wins over a global one; every entry of
      a mapping took effect below `c`, at any depth. */
  ghost predicate Takes(m: Machine, c: Path, v: Value, global: map<string, Value>)
    decreases v
  {
    match v
    case Params(args, kwargs) =>
      && c in m.nodes
      && m.nodes[c].args == args
      && m.nodes[c].kwargs == SetKwargs(m.nodes[c].func.sig, map[], global + kwargs, true)
    case Dict(es) => forall i | 0 <= i < |es| :: Takes(m, c + [es[i].0], es[i].1, global)
    case _ => true
  }

  /** Every entry of `entries` took effect on the child of `g` it names. */
  ghost predicate SpecificsApplied(m: Machine, g: Path, entries: seq<(string, Value)>, global: map<string, Value>)
  {
    forall i | 0 <= i < |entries| :: Takes(m, g + [entries[i].0], entries[i].1, global)
  }

  /** Whether `q` is a node some entry of `entries` sets, at any depth below `g`. */
  ghost predicate Addressed(g: Path, entries: seq<(string, Value)>, q: Path)
  {
    exists i | 0 <= i < |entries| :: Reaches(g + [entries[i].0], entries[i].1, q)
  }

  /** What routing `v` at `c` took effect as depends only on the nodes at or below `c`. */
  lemma {:induction false} TakesFramed(m: Machine, m': Machine, c: Path, v: Value, global: map<string, Value>)
    requires Takes(m, c, v, global) && m'.nodes.Keys == m.nodes.Keys
    requires forall q | q in m.nodes && Under(c, q) :: m'.nodes[q] == m.nodes[q]
    ensures Takes(m', c, v, global)
    decreases v
  {
    match v
    case Params(_, _) =>
      assert Under(c, c);
    case Dict(es) =>
      forall i | 0 <= i < |es|
        ensures Takes(m', c + [es[i].0], es[i].1, global)
      {
        forall q | q in m.nodes && Under(c + [es[i].0], q)
          ensures Under(c, q)
        {
          assert q[..|c|] == (c + [es[i].0])[..|c|];
        }
        TakesFramed(m, m', c + [es[i].0], es[i].1, global);
      }
    case _ =>
  }

  /** A node routing `v` at `c` sets lies at or below `c`. */
  lemma {:induction false} ReachesUnder(c: Path, v: Value, q: Path)
    requires Reaches(c, v, q)
    ensures Under(c, q)
    decreases v
  {
    match v
    case Params(_, _) =>
    case Dict(es) =>
      var i :| 0 <= i < |es| && Reaches(c + [es[i].0], es[i].1, q);
      ReachesUnder(c + [es[i].0], es[i].1, q);
      assert q[..|c|] == (q[..|c| + 1])[..|c|];
  }

  /** Nodes outside the subtrees of the children named in `keys` keep their configuration. */
  ghost predicate KeepsOutside(m: Machine, m': Machine, g: Path, keys: set<string>)
    requires m'.nodes.Keys == m.nodes.Keys
  {
    forall q | q in m.nodes && Outside(g, keys, q) :: m'.nodes[q] == m.nodes[q]
  }

  /** A node outside the child `g + [key]` is outside every subtree below that child. */
  lemma OutsideNested(g: Path, key: string, keys: set<string>, q: Path)
    requires Outside(g, {key}, q)
    ensures Outside(g + [key], keys, q)
  {
  }

  /** The bookkeeping that carries `SetSpec`'s frame from its tail to the
      whole entry list. */
  lemma TailKeeps(m: Machine, m1: Machine, r: Machine, g: Path, entries: seq<(string, Value)>)
    requires |entries| > 0 && m1.nodes.Keys == m.nodes.Keys && r.nodes.Keys == m.nodes.Keys
    requires KeepsOutside(m, m1, g, {entries[0].0})
    requires KeepsOutside(m1, r, g, KeysOf(entries[1..]))
    ensures KeepsOutside(m, r, g, KeysOf(entries))
  {
    assert KeysOf(entries) == {entries[0].0} + KeysOf(entries[1..]);
  }

  /** The first entry's subtree lies outside the subtrees the later entries name. */
  lemma FirstOutside(g: Path, entries: seq<(string, Value)>)
    requires |entries| > 0 && KeyedList(entries)
    ensures KeyedList(entries[1..])
    ensures forall q | Under(g + [entries[0].0], q) :: Outside(g, KeysOf(entries[1..]), q)
  {
    forall i | 0 <= i < |entries[1..]|
      ensures KeyedOnce(entries[1..][i].1)
    {
      assert entries[1..][i] == entries[i + 1];
    }
    forall q | Under(g + [entries[0].0], q)
      ensures Outside(g, KeysOf(entries[1..]), q)
    {
      assert q[..|g| + 1] == g + [entries[0].0];
      assert q[|g|] == entries[0].0;
    }
  }

  /** The bookkeeping that carries `SetSpec`'s effect on named nodes from its
      tail to the whole entry list. */
  lemma TailApplied(m1: Machine, r: Machine, g: Path, entries: seq<(string, Value)>, global: map<string, Value>)
    requires |entries| > 0 && KeyedList(entries) && r.nodes.Keys == m1.nodes.Keys
    requires SpecificsApplied(m1, g, entries[..1], global)
    requires KeepsOutside(m1, r, g, KeysOf(entries[1..]))
    requires KeyedList(entries[1..]) ==> SpecificsApplied(r, g, entries[1..], global)
    ensures SpecificsApplied(r, g, entries, global)
  {
    FirstOutside(g, entries);
    assert entries[..1][0] == entries[0];
    TakesFramed(m1, r, g + [entries[0].0], entries[0].1, global);
    forall i | 0 < i < |entries|
      ensures Takes(r, g + [entries[i].0], entries[i].1, global)
    {
      assert entries[1..][i - 1] == entries[i];
    }
  }

  /** Only the subtrees of the children the entries name are reconfigured,
      and every `params` entry takes effect. */
  lemma {:induction false} SetSpecEffect(m: Machine, g: Path, top: Value, entries: seq<(string, Value)>,
                                         global: map<string, Value>)
    requires Valid(m)
    requires forall i | 0 <= i < |entries| :: entries[i].1 < top
    ensures SetSpec(m, g, top, entries, global).Ok? ==>
              && KeepsOutside(m, SetSpec(m, g, top, entries, global).value, g, KeysOf(entries))
              && (KeyedList(entries) ==> SpecificsApplied(SetSpec(m, g, top, entries, global).value, g, entries, global))
    decreases top, |entries|, 1
  {
    if entries != [] && SetSpec(m, g, top, entries, global).Ok? {
      if entries[0].1.Params? {
        ParamsEntryEffect(m, g, top, entries, global);
      } else {
        GroupEntryEffect(m, g, top, entries, global);
      }
    }
  }

  /** Setting child node `g + [key]` from a `params` bundle reconfigures that
      node alone, as the bundle says. */
  lemma NodeSetApplies(m: Machine, g: Path, key: string, v: Value, global: map<string, Value>)
    requires Valid(m) && v.Params? && g + [key] in m.nodes
    ensures Retunes(m, NodeSet(m, g + [key], v.args, global + v.kwargs))
    ensures KeepsOutside(m, NodeSet(m, g + [key], v.args, global + v.kwargs), g, {key})
    ensures SpecificsApplied(NodeSet(m, g + [key], v.args, global + v.kwargs), g, [(key, v)], global)
  {
    var c := g + [key];
    forall q | q in m.nodes && Outside(g, {key}, q)
      ensures q != c
    {
      assert c[|g|] == key;
    }
  }

  lemma {:induction false} ParamsEntryEffect(m: Machine, g: Path, top: Value, entries: seq<(string, Value)>,
                                             global: map<string, Value>)
    requires Valid(m) && |entries| > 0 && entries[0].1.Params?
    requires forall i | 0 <= i < |entries| :: entries[i].1 < top
    requires SetSpec(m, g, top, entries, global).Ok?
    ensures KeepsOutside(m, SetSpec(m, g, top, entries, global).value, g, KeysOf(entries))
    ensures KeyedList(entries) ==> SpecificsApplied(SetSpec(m, g, top, entries, global).value, g, entries, global)
    decreases top, |entries|, 0
  {
    var v := entries[0].1;
    SetSpecParamsStep(m, g, top, entries, global);
    var m1 := NodeSet(m, g + [entries[0].0], v.args, global + v.kwargs);
    FirstApplies(m, g, entries, global);
    SetSpecEffect(m1, g, top, entries[1..], global);
    TailEffect(m, m1, SetSpec(m1, g, top, entries[1..], global).value, g, entries, global);
  }

  lemma {:induction false} GroupEntryEffect(m: Machine, g: Path, top: Value, entries: seq<(string, Value)>,
                                            global: map<string, Value>)
    requires Valid(m) && |entries| > 0 && !entries[0].1.Params?
    requires forall i | 0 <= i < |entries| :: entries[i].1 < top
    requires SetSpec(m, g, top, entries, global).Ok?
    ensures KeepsOutside(m, SetSpec(m, g, top, entries, global).value, g, KeysOf(entries))
    ensures KeyedList(entries) ==> SpecificsApplied(SetSpec(m, g, top, entries, global).value, g, entries, global)
    decreases top, |entries|, 0
  {
    var key := entries[0].0;
    var v := entries[0].1;
    SetSpecDictStep(m, g, top, entries, global);
    var n := SetSpec(m, g + [key], v, v.entries, global);
    SetSpecEffect(m, g + [key], v, v.entries, global);
    NestedEffect(m, n.value, g, entries, global);
    SetSpecEffect(n.value, g, top, entries[1..], global);
    TailEffect(m, n.value, SetSpec(n.value, g, top, entries[1..], global).value, g, entries, global);
  }

  /** `NodeSetApplies` for the first entry of a list. */
  lemma FirstApplies(m: Machine, g: Path, entries: seq<(string, Value)>, global: map<string, Value>)
    requires Valid(m) && |entries| > 0 && entries[0].1.Params? && g + [entries[0].0] in m.nodes
    ensures var m1 := NodeSet(m, g + [entries[0].0], entries[0].1.args, global + entries[0].1.kwargs);
      && m1.nodes.Keys == m.nodes.Keys
      && KeepsOutside(m, m1, g, {entries[0].0})
      && SpecificsApplied(m1, g, entries[..1], global)
  {
    NodeSetApplies(m, g, entries[0].0, entries[0].1, global);
    assert entries[..1] == [(entries[0].0, entries[0].1)];
  }

  /** A nested mapping reconfigures only the subtree of its child group and
      sets no node directly below `g`. */
  lemma NestedEffect(m: Machine, n: Machine, g: Path, entries: seq<(string, Value)>, global: map<string, Value>)
    requires |entries| > 0 && entries[0].1.Dict? && n.nodes.Keys == m.nodes.Keys
    requires KeepsOutside(m, n, g + [entries[0].0], KeysOf(entries[0].1.entries))
    requires KeyedList(entries[0].1.entries) ==> SpecificsApplied(n, g + [entries[0].0], entries[0].1.entries, global)
    ensures KeepsOutside(m, n, g, {entries[0].0})
    ensures KeyedList(entries) ==> SpecificsApplied(n, g, entries[..1], global)
  {
    assert entries[..1][0] == entries[0];
    if KeyedList(entries) {
      assert KeyedOnce(entries[0].1);
      assert Takes(n, g + [entries[0].0], entries[0].1, global);
    }
    forall q | q in m.nodes && Outside(g, {entries[0].0}, q)
      ensures n.nodes[q] == m.nodes[q]
    {
      OutsideNested(g, entries[0].0, KeysOf(entries[0].1.entries), q);
    }
  }

  /** Carries the first entry's effect and the tail's effect to the whole list. */
  lemma TailEffect(m: Machine, m1: Machine, r: Machine, g: Path, entries: seq<(string, Value)>,
                   global: map<string, Value>)
    requires |entries| > 0 && m1.nodes.Keys == m.nodes.Keys && r.nodes.Keys == m.nodes.Keys
    requires KeepsOutside(m, m1, g, {entries[0].0})
    requires KeyedList(entries) ==> SpecificsApplied(m1, g, entries[..1], global)
    requires KeepsOutside(m1, r, g, KeysOf(entries[1..]))
    requires KeyedList(entries[1..]) ==> SpecificsApplied(r, g, entries[1..], global)
    ensures KeepsOutside(m, r, g, KeysOf(entries))
    ensures KeyedList(entries) ==> SpecificsApplied(r, g, entries, global)
  {
    TailKeeps(m, m1, r, g, entries);
    if KeyedList(entries) {
      TailApplied(m1, r, g, entries, global);
    }
  }

  /** Every entry of `entries` fits group `g`. */
  ghost predicate AllFit(nodes: set<Path>, groups: set<Path>, g: Path, entries: seq<(string, Value)>)
  {
    forall i | 0 <= i < |entries| :: Fits(nodes, groups, g, entries[i].0, entries[i].1)
  }

  lemma AllFitCons(nodes: set<Path>, groups: set<Path>, g: Path, entries: seq<(string, Value)>)
    requires |entries| > 0
    ensures AllFit(nodes, groups, g, entries)
            <==> Fits(nodes, groups, g, entries[0].0, entries[0].1) && AllFit(nodes, groups, g, entries[1..])
  {
    assert forall i | 0 <= i < |entries[1..]| :: entries[1..][i] == entries[i + 1];
  }

  /** A specific parameter set is accepted exactly when every entry fits the group. */
  lemma {:induction false} SetSpecAccepts(m: Machine, g: Path, top: Value, entries: seq<(string, Value)>,
                                          global: map<string, Value>)
    requires Valid(m)
    requires forall i | 0 <= i < |entries| :: entries[i].1 < top
    ensures SetSpec(m, g, top, entries, global).Ok? <==> AllFit(m.nodes.Keys, m.groups, g, entries)
    decreases top, |entries|, 1
  {
    if entries != [] {
      AllFitCons(m.nodes.Keys, m.groups, g, entries);
      var key := entries[0].0;
      var v := entries[0].1;
      var c := g + [key];
      if v.Params? && c in m.nodes {
        var m1 := NodeSet(m, c, v.args, global + v.kwargs);
        SetSpecParamsUnfold(m, g, top, entries, global);
        SetSpecAccepts(m1, g, top, entries[1..], global);
      } else if v.Dict? && c !in m.nodes && c in m.groups {
        DictAccepts(m, g, top, entries, global);
      } else {
        SetSpecRefuses(m, g, top, entries, global);
      }
    }
  }

  /** `SetSpecAccepts` for a nested mapping aimed at a child group. */
  lemma {:induction false} DictAccepts(m: Machine, g: Path, top: Value, entries: seq<(string, Value)>,
                                       global: map<string, Value>)
    requires Valid(m) && |entries| > 0 && entries[0].1.Dict?
    requires g + [entries[0].0] !in m.nodes && g + [entries[0].0] in m.groups
    requires forall i | 0 <= i < |entries| :: entries[i].1 < top
    ensures SetSpec(m, g, top, entries, global).Ok?
            <==> Fits(m.nodes.Keys, m.groups, g, entries[0].0, entries[0].1) && AllFit(m.nodes.Keys, m.groups, g, entries[1..])
    decreases top, |entries|, 0
  {
    var v := entries[0].1;
    var c := g + [entries[0].0];
    SetSpecDictUnfold(m, g, top, entries, global);
    SetSpecAccepts(m, c, v, v.entries, global);
    FitsDict(m.nodes.Keys, m.groups, g, entries[0].0, v);
    var n := SetSpec(m, c, v, v.entries, global);
    if n.Ok? {
      SetSpecAccepts(n.value, g, top, entries[1..], global);
    }
  }

  /** A nested mapping fits exactly when it names a child group all of whose entries fit. */
  lemma FitsDict(nodes: set<Path>, groups: set<Path>, g: Path, key: string, v: Value)
    requires v.Dict?
    ensures Fits(nodes, groups, g, key, v)
            <==> g + [key] !in nodes && g + [key] in groups && AllFit(nodes, groups, g + [key], v.entries)
  {
  }

  /** A refused specific parameter set fails with one of the four errors the engine raises. */
  lemma {:induction false} SetSpecErrors(m: Machine, g: Path, top: Value, entries: seq<(string, Value)>,
                                         global: map<string, Value>)
    requires Valid(m)
    requires forall i | 0 <= i < |entries| :: entries[i].1 < top
    ensures SetSpec(m, g, top, entries, global).Err? ==>
              SetSpec(m, g, top, entries, global).error in {BadCall, NotFound, MissingAttribute, ParamSpecError}
    decreases top, |entries|
  {
    if entries != [] {
      var v := entries[0].1;
      var c := g + [entries[0].0];
      if v.Params? && c in m.nodes {
        SetSpecParamsUnfold(m, g, top, entries, global);
        SetSpecErrors(NodeSet(m, c, v.args, global + v.kwargs), g, top, entries[1..], global);
      } else if v.Dict? && c !in m.nodes && c in m.groups {
        SetSpecDictUnfold(m, g, top, entries, global);
        SetSpecErrors(m, c, v, v.entries, global);
        var n := SetSpec(m, c, v, v.entries, global);
        if n.Ok? {
          SetSpecErrors(n.value, g, top, entries[1..], global);
        }
      } else {
        SetSpecRefuses(m, g, top, entries, global);
      }
    }
  }

  /** Routing a `params` entry whose child is a node: the node is set and the
      rest of the entries are routed after it. */
  lemma SetSpecParamsUnfold(m: Machine, g: Path, top: Value, entries: seq<(string, Value)>, global: map<string, Value>)
    requires Valid(m) && |entries| > 0 && entries[0].1.Params? && g + [entries[0].0] in m.nodes
    requires forall i | 0 <= i < |entries| :: entries[i].1 < top
    ensures forall i | 0 <= i < |entries[1..]| :: entries[1..][i].1 < top
    ensures SetSpec(m, g, top, entries, global)
            == SetSpec(NodeSet(m, g + [entries[0].0], entries[0].1.args, global + entries[0].1.kwargs), g, top, entries[1..], global)
  {
    assert forall i | 0 <= i < |entries[1..]| :: entries[1..][i] == entries[i + 1];
  }

  /** Routing a nested mapping whose child is a group: the mapping is routed
      into the group, and on success the rest of the entries after it. */
  lemma SetSpecDictUnfold(m: Machine, g: Path, top: Value, entries: seq<(string, Value)>, global: map<string, Value>)
    requires Valid(m) && |entries| > 0 && entries[0].1.Dict?
    requires g + [entries[0].0] !in m.nodes && g + [entries[0].0] in m.groups
    requires forall i | 0 <= i < |entries| :: entries[i].1 < top
    ensures forall i | 0 <= i < |entries[1..]| :: entries[1..][i].1 < top
    ensures var n := SetSpec(m, g + [entries[0].0], entries[0].1, entries[0].1.entries, global);
      && (n.Err? ==> SetSpec(m, g, top, entries, global) == Err(n.error))
      && (n.Ok? ==> SetSpec(m, g, top, entries, global) == SetSpec(n.value, g, top, entries[1..], global))
  {
    assert forall i | 0 <= i < |entries[1..]| :: entries[1..][i] == entries[i + 1];
  }

  /** An entry that fits nowhere refuses the whole set, with the engine's error for it. */
  lemma SetSpecRefuses(m: Machine, g: Path, top: Value, entries: seq<(string, Value)>, global: map<string, Value>)
    requires Valid(m) && |entries| > 0
    requires forall i | 0 <= i < |entries| :: entries[i].1 < top
    requires !(entries[0].1.Params? && g + [entries[0].0] in m.nodes)
    requires !(entries[0].1.Dict? && g + [entries[0].0] !in m.nodes && g + [entries[0].0] in m.groups)
    ensures SetSpec(m, g, top, entries, global).Err?
    ensures SetSpec(m, g, top, entries, global).error in {BadCall, NotFound, MissingAttribute, ParamSpecError}
  {
  }

  /** One step of routing a `params` entry: the child is a node, which is
      set, and the rest of the entries are routed after it. */
  lemma SetSpecParamsStep(m: Machine, g: Path, top: Value, entries: seq<(string, Value)>, global: map<string, Value>)
    requires Valid(m) && |entries| > 0 && entries[0].1.Params?
    requires forall i | 0 <= i < |entries| :: entries[i].1 < top
    requires SetSpec(m, g, top, entries, global).Ok?
    ensures g + [entries[0].0] in m.nodes
    ensures forall i | 0 <= i < |entries[1..]| :: entries[1..][i].1 < top
    ensures SetSpec(m, g, top, entries, global)
            == SetSpec(NodeSet(m, g + [entries[0].0], entries[0].1.args, global + entries[0].1.kwargs), g, top, entries[1..], global)
  {
    assert forall i | 0 <= i < |entries[1..]| :: entries[1..][i] == entries[i + 1];
  }

  /** One step of routing a nested mapping: the child is a group, the
      mapping is routed into it, and the rest of the entries after that. */
  lemma SetSpecDictStep(m: Machine, g: Path, top: Value, entries: seq<(string, Value)>, global: map<string, Value>)
    requires Valid(m) && |entries| > 0 && !entries[0].1.Params?
    requires forall i | 0 <= i < |entries| :: entries[i].1 < top
    requires SetSpec(m, g, top, entries, global).Ok?
    ensures entries[0].1.Dict? && g + [entries[0].0] !in m.nodes && g + [entries[0].0] in m.groups
    ensures forall i | 0 <= i < |entries[1..]| :: entries[1..][i].1 < top
    ensures SetSpec(m, g + [entries[0].0], entries[0].1, entries[0].1.entries, global).Ok?
    ensures SetSpec(m, g, top, entries, global)
            == SetSpec(SetSpec(m, g + [entries[0].0], entries[0].1, entries[0].1.entries, global).value,
                       g, top, entries[1..], global)
  {
    assert forall i | 0 <= i < |entries[1..]| :: entries[1..][i] == entries[i + 1];
  }

  /** A node the entries address is addressed by the first entry or by the rest. */
  lemma AddressedCons(g: Path, entries: seq<(string, Value)>)
    requires |entries| > 0
    ensures forall q :: Addressed(g, entries, q)
                        <==> Reaches(g + [entries[0].0], entries[0].1, q) || Addressed(g, entries[1..], q)
  {
    forall q
      ensures Addressed(g, entries, q) <==> Reaches(g + [entries[0].0], entries[0].1, q) || Addressed(g, entries[1..], q)
    {
      if Addressed(g, entries, q) {
        var i :| 0 <= i < |entries| && Reaches(g + [entries[i].0], entries[i].1, q);
        if i > 0 {
          assert entries[1..][i - 1] == entries[i];
        }
      }
      if Addressed(g, entries[1..], q) {
        var i :| 0 <= i < |entries[1..]| && Reaches(g + [entries[1..][i].0], entries[1..][i].1, q);
        assert entries[i + 1] == entries[1..][i];
      }
    }
  }

  /** Routing reconfigures only the nodes its entries address, at any depth:
      a node below an addressed sub-group that no nested entry names keeps
      its configuration. */
  lemma {:induction false} SetSpecFrame(m: Machine, g: Path, top: Value, entries: seq<(string, Value)>,
                                        global: map<string, Value>)
    requires Valid(m)
    requires forall i | 0 <= i < |entries| :: entries[i].1 < top
    ensures SetSpec(m, g, top, entries, global).Ok? ==>
              forall q | q in m.nodes && !Addressed(g, entries, q) ::
                SetSpec(m, g, top, entries, global).value.nodes[q] == m.nodes[q]
    decreases top, |entries|
  {
    if entries != [] && SetSpec(m, g, top, entries, global).Ok? {
      var c := g + [entries[0].0];
      var v := entries[0].1;
      AddressedCons(g, entries);
      if v.Params? {
        SetSpecParamsStep(m, g, top, entries, global);
        assert Reaches(c, v, c);
        SetSpecFrame(NodeSet(m, c, v.args, global + v.kwargs), g, top, entries[1..], global);
      } else {
        SetSpecDictStep(m, g, top, entries, global);
        SetSpecFrame(m, c, v, v.entries, global);
        SetSpecFrame(SetSpec(m, c, v, v.entries, global).value, g, top, entries[1..], global);
      }
    }
  }

  /** Routing keeps an instance coherent. */
  lemma {:induction false} SetSpecCoherent(m: Machine, g: Path, top: Value, entries: seq<(string, Value)>,
                                           global: map<string, Value>)
    requires Valid(m) && Coherent(m.nodes, m.cells)
    requires forall i | 0 <= i < |entries| :: entries[i].1 < top
    ensures SetSpec(m, g, top, entries, global).Ok? ==>
              Coherent(SetSpec(m, g, top, entries, global).value.nodes, SetSpec(m, g, top, entries, global).value.cells)
    decreases top, |entries|
  {
    if entries != [] && SetSpec(m, g, top, entries, global).Ok? {
      var c := g + [entries[0].0];
      var v := entries[0].1;
      if v.Params? {
        SetSpecParamsStep(m, g, top, entries, global);
        NodeSetCoherent(m, c, v.args, global + v.kwargs);
        SetSpecCoherent(NodeSet(m, c, v.args, global + v.kwargs), g, top, entries[1..], global);
      } else {
        SetSpecDictStep(m, g, top, entries, global);
        SetSpecCoherent(m, c, v, v.entries, global);
        SetSpecCoherent(SetSpec(m, c, v, v.entries, global).value, g, top, entries[1..], global);
      }
    }
  }

  /** The entries naming no child of `g`: the global parameters. */
  function GlobalPart(m: Machine, g: Path, kwargs: seq<(string, Value)>): (r: map<string, Value>)
    ensures forall k :: k in r <==> k in KeysOf(kwargs) && !IsChild(m, g, k)
    ensures DistinctKeys(kwargs) ==>
              forall i | 0 <= i < |kwargs| && !IsChild(m, g, kwargs[i].0) :: r[kwargs[i].0] == kwargs[i].1
    decreases |kwargs|
  {
    if kwargs == [] then map[]
    else
      var rest := GlobalPart(m, g, kwargs[1..]);
      assert forall i | 1 <= i < |kwargs| :: kwargs[i] == kwargs[1..][i - 1];
      assert KeysOf(kwargs) == {kwargs[0].0} + KeysOf(kwargs[1..]);
      if IsChild(m, g, kwargs[0].0) then rest else rest[kwargs[0].0 := kwargs[0].1]
  }

  /** The entries naming a child of `g`, in order: the specific parameters. */
  function SpecificPart(m: Machine, g: Path, kwargs: seq<(string, Value)>): (r: seq<(string, Value)>)
    ensures forall i | 0 <= i < |r| :: IsChild(m, g, r[i].0) && r[i] in kwargs
    ensures forall i | 0 <= i < |kwargs| && IsChild(m, g, kwargs[i].0) :: kwargs[i] in r
    decreases |kwargs|
  {
    if kwargs == [] then []
    else
      var rest := SpecificPart(m, g, kwargs[1..]);
      assert forall i | 1 <= i < |kwargs| :: kwargs[i] == kwargs[1..][i - 1];
      if IsChild(m, g, kwargs[0].0) then [kwargs[0]] + rest else rest
  }

  /** The specific entries of a keyword dictionary name each child once. */
  lemma {:induction false} SpecificDistinct(m: Machine, g: Path, kwargs: seq<(string, Value)>)
    requires DistinctKeys(kwargs)
    ensures DistinctKeys(SpecificPart(m, g, kwargs))
    decreases |kwargs|
  {
    if kwargs != [] {
      var rest := SpecificPart(m, g, kwargs[1..]);
      SpecificDistinct(m, g, kwargs[1..]);
      if IsChild(m, g, kwargs[0].0) {
        var r := [kwargs[0]] + rest;
        forall i, j | 0 <= i < j < |r|
          ensures r[i].0 != r[j].0
        {
          if i == 0 {
            var k :| 0 <= k < |kwargs[1..]| && kwargs[1..][k] == r[j];
            assert kwargs[k + 1] == r[j];
          } else {
            assert r[i] == rest[i - 1] && r[j] == rest[j - 1];
          }
        }
      }
    }
  }

  /** The instance after the broadcast step of `set`, which is skipped when
      there are no globals. */
  ghost function AfterGlobals(m: Machine, g: Path, global: map<string, Value>): (r: Machine)
    requires Valid(m)
    ensures Retunes(m, r)
    ensures r.nodes == if |global| > 0 then MergeGlobals(m.nodes, Descendants(m, g), global) else m.nodes
    ensures |global| > 0 ==> forall q | q in Descendants(m, g) :: r.cells[q].dirty
  {
    if |global| > 0 then Broadcast(m, g, global) else m
  }

  /** `NodeGroup.set(**kwargs)` (`_set_params`) on group `g`: the globals
      are broadcast first, when there are any, then the specific entries are
      applied over them. */
  ghost function SetParams(m: Machine, g: Path, kwargs: seq<(string, Value)>): (r: Result<Machine>)
    requires Valid(m)
    ensures r.Ok? ==> Retunes(m, r.value)
  {
    var global := GlobalPart(m, g, kwargs);
    var spec := SpecificPart(m, g, kwargs);
    var m1 := AfterGlobals(m, g, global);
    if |spec| > 0 then
      var r := SetSpec(m1, g, Dict(spec), spec, global);
      if r.Ok? then RetunesTransitive(m, m1, r.value); r else r
    else Ok(m1)
  }

  /** `set` is accepted exactly when every entry naming a child fits it. */
  lemma SetParamsAccepts(m: Machine, g: Path, kwargs: seq<(string, Value)>)
    requires Valid(m)
    ensures (SetParams(m, g, kwargs).Ok?
             <==> forall i | 0 <= i < |kwargs| && IsChild(m, g, kwargs[i].0) ::
                    Fits(m.nodes.Keys, m.groups, g, kwargs[i].0, kwargs[i].1))
    ensures SetParams(m, g, kwargs).Err? ==>
              SetParams(m, g, kwargs).error in {BadCall, NotFound, MissingAttribute, ParamSpecError}
  {
    var global := GlobalPart(m, g, kwargs);
    var spec := SpecificPart(m, g, kwargs);
    var m1 := AfterGlobals(m, g, global);
    SetSpecAccepts(m1, g, Dict(spec), spec, global);
    SetSpecErrors(m1, g, Dict(spec), spec, global);
  }

  /** The specific step of `set` reconfigures only the children it names. */
  lemma SpecStepEffect(m: Machine, g: Path, kwargs: seq<(string, Value)>)
    requires Valid(m) && SetParams(m, g, kwargs).Ok?
    ensures var m1 := AfterGlobals(m, g, GlobalPart(m, g, kwargs));
            KeepsOutside(m1, SetParams(m, g, kwargs).value, g, KeysOf(SpecificPart(m, g, kwargs)))
    ensures var m1 := AfterGlobals(m, g, GlobalPart(m, g, kwargs));
            forall q | q in m.nodes && !Addressed(g, SpecificPart(m, g, kwargs), q) ::
              SetParams(m, g, kwargs).value.nodes[q] == m1.nodes[q]
    ensures KeyedList(kwargs) ==>
              SpecificsApplied(SetParams(m, g, kwargs).value, g, SpecificPart(m, g, kwargs), GlobalPart(m, g, kwargs))
  {
    var global := GlobalPart(m, g, kwargs);
    var spec := SpecificPart(m, g, kwargs);
    var m1 := AfterGlobals(m, g, global);
    if KeyedList(kwargs) {
      SpecificKeyed(m, g, kwargs);
    }
    SetSpecEffect(m1, g, Dict(spec), spec, global);
    SetSpecFrame(m1, g, Dict(spec), spec, global);
  }

  /** The specific entries of a Python keyword dictionary are themselves keyed once. */
  lemma SpecificKeyed(m: Machine, g: Path, kwargs: seq<(string, Value)>)
    requires KeyedList(kwargs)
    ensures KeyedList(SpecificPart(m, g, kwargs))
  {
    SpecificDistinct(m, g, kwargs);
    var spec := SpecificPart(m, g, kwargs);
    forall i | 0 <= i < |spec|
      ensures KeyedOnce(spec[i].1)
    {
      var j :| 0 <= j < |kwargs| && kwargs[j] == spec[i];
    }
  }

  /** What `set` on group `g` does to the configuration of each node: nodes
      outside the group are untouched, and the nodes below the group that no
      specific entry addresses, at any depth of nesting, merge the accepted
      globals, whether or not they have upstream peers. */
  lemma SetParamsEffect(m: Machine, g: Path, kwargs: seq<(string, Value)>)
    requires Valid(m) && SetParams(m, g, kwargs).Ok?
    ensures forall q | q in m.nodes && q !in Descendants(m, g) :: SetParams(m, g, kwargs).value.nodes[q] == m.nodes[q]
    ensures forall q | q in Descendants(m, g) && !Addressed(g, SpecificPart(m, g, kwargs), q) ::
              SetParams(m, g, kwargs).value.nodes[q]
                == if |GlobalPart(m, g, kwargs)| > 0
                   then m.nodes[q].(kwargs := SetKwargs(m.nodes[q].func.sig, m.nodes[q].kwargs, GlobalPart(m, g, kwargs), false))
                   else m.nodes[q]
  {
    SpecStepEffect(m, g, kwargs);
  }

  /** Globals, when there are any, leave every node below the group dirty. */
  lemma SetParamsMarks(m: Machine, g: Path, kwargs: seq<(string, Value)>)
    requires Valid(m) && SetParams(m, g, kwargs).Ok?
    ensures |GlobalPart(m, g, kwargs)| > 0 ==> forall q | q in Descendants(m, g) :: SetParams(m, g, kwargs).value.cells[q].dirty
  {
    var global := GlobalPart(m, g, kwargs);
    SetParamsAfter(m, g, kwargs);
    if |global| > 0 {
      StaysDirty(AfterGlobals(m, g, global).cells, SetParams(m, g, kwargs).value.cells, Descendants(m, g));
    }
  }

  /** The specific step of `set` only marks caches stale over what the broadcast left. */
  lemma SetParamsAfter(m: Machine, g: Path, kwargs: seq<(string, Value)>)
    requires Valid(m)
    ensures SetParams(m, g, kwargs).Ok? ==>
              OnlyStales(AfterGlobals(m, g, GlobalPart(m, g, kwargs)).cells, SetParams(m, g, kwargs).value.cells)
  {
    var global := GlobalPart(m, g, kwargs);
    var spec := SpecificPart(m, g, kwargs);
    var m1 := AfterGlobals(m, g, global);
    if |spec| > 0 && SetParams(m, g, kwargs).Ok? {
      var r := SetSpec(m1, g, Dict(spec), spec, global);
      assert SetParams(m, g, kwargs) == r;
      assert OnlyStales(m1.cells, r.value.cells);
    }
  }

  lemma StaysDirty(cells: map<Path, Cell>, cells': map<Path, Cell>, s: set<Path>)
    requires OnlyStales(cells, cells') && s <= cells.Keys
    requires forall q | q in s :: cells[q].dirty
    ensures forall q | q in s :: cells'[q].dirty
  {
  }

  /** Every node a `params` entry addresses, directly or through nested
      `group(...)` mappings, takes its arguments, and its keywords laid over
      the globals, so a specific keyword wins. */
  lemma SetParamsSpecific(m: Machine, g: Path, kwargs: seq<(string, Value)>)
    requires Valid(m) && SetParams(m, g, kwargs).Ok? && KeyedList(kwargs)
    ensures SpecificsApplied(SetParams(m, g, kwargs).value, g, SpecificPart(m, g, kwargs), GlobalPart(m, g, kwargs))
  {
    SpecStepEffect(m, g, kwargs);
  }

  /** `set` keeps an instance coherent. */
  lemma SetParamsCoherent(m: Machine, g: Path, kwargs: seq<(string, Value)>)
    requires Valid(m) && Coherent(m.nodes, m.cells)
    ensures SetParams(m, g, kwargs).Ok? ==> Coherent(SetParams(m, g, kwargs).value.nodes, SetParams(m, g, kwargs).value.cells)
  {
    var global := GlobalPart(m, g, kwargs);
    var spec := SpecificPart(m, g, kwargs);
    if |global| > 0 {
      BroadcastCoherent(m, g, global);
    }
    var m1 := AfterGlobals(m, g, global);
    SetSpecCoherent(m1, g, Dict(spec), spec, global);
  }

  /** Broadcasting keeps an instance coherent. */
  lemma BroadcastCoherent(m: Machine, g: Path, global: map<string, Value>)
    requires Valid(m) && Coherent(m.nodes, m.cells)
    ensures Coherent(Broadcast(m, g, global).nodes, Broadcast(m, g, global).cells)
  {
    var below := Descendants(m, g);
    var nodes := MergeGlobals(m.nodes, below, global);
    Retuned(m.nodes, nodes);
    var order := Enumerate(below);
    SameLinksCoherent(m.nodes, nodes, m.cells);
    CoherentIffDownClosed(nodes, m.cells);
    InvalidateAllClosed(nodes, m.cells, order, {});
    CoherentIffDownClosed(nodes, InvalidateAll(nodes, m.cells, order));
  }

  /** Every node whose configuration changed between `m` and `m'` is dirty in `m'`. */
  ghost predicate MarksChanged(m: Machine, m': Machine)
    requires m'.nodes.Keys == m.nodes.Keys && m'.cells.Keys == m.nodes.Keys
  {
    forall q | q in m.nodes && m'.nodes[q] != m.nodes[q] :: m'.cells[q].dirty
  }

  lemma MarksTransitive(a: Machine, b: Machine, c: Machine)
    requires b.nodes.Keys == a.nodes.Keys && c.nodes.Keys == a.nodes.Keys
    requires b.cells.Keys == a.nodes.Keys && c.cells.Keys == a.nodes.Keys
    requires OnlyStales(b.cells, c.cells) && MarksChanged(a, b) && MarksChanged(b, c)
    ensures MarksChanged(a, c)
  {
  }

  /** Routing leaves every reconfigured node dirty. */
  lemma {:induction false} SetSpecMarks(m: Machine, g: Path, top: Value, entries: seq<(string, Value)>,
                                        global: map<string, Value>)
    requires Valid(m)
    requires forall i | 0 <= i < |entries| :: entries[i].1 < top
    ensures SetSpec(m, g, top, entries, global).Ok? ==> MarksChanged(m, SetSpec(m, g, top, entries, global).value)
    decreases top, |entries|
  {
    if entries != [] && SetSpec(m, g, top, entries, global).Ok? {
      var c := g + [entries[0].0];
      var v := entries[0].1;
      var r := SetSpec(m, g, top, entries, global).value;
      if v.Params? {
        SetSpecParamsStep(m, g, top, entries, global);
        var m1 := NodeSet(m, c, v.args, global + v.kwargs);
        SetSpecMarks(m1, g, top, entries[1..], global);
        MarksTransitive(m, m1, r);
      } else {
        SetSpecDictStep(m, g, top, entries, global);
        var n := SetSpec(m, c, v, v.entries, global).value;
        SetSpecMarks(m, c, v, v.entries, global);
        SetSpecMarks(n, g, top, entries[1..], global);
        MarksTransitive(m, n, r);
      }
    }
  }

  /** `set` leaves every node it reconfigured dirty. */
  lemma SetParamsStales(m: Machine, g: Path, kwargs: seq<(string, Value)>)
    requires Valid(m) && SetParams(m, g, kwargs).Ok?
    ensures MarksChanged(m, SetParams(m, g, kwargs).value)
  {
    var global := GlobalPart(m, g, kwargs);
    var spec := SpecificPart(m, g, kwargs);
    var m1 := AfterGlobals(m, g, global);
    var r := SetParams(m, g, kwargs).value;
    SetSpecMarks(m1, g, Dict(spec), spec, global);
    if |spec| > 0 {
      assert r == SetSpec(m1, g, Dict(spec), spec, global).value;
      MarksTransitive(m, m1, r);
    }
  }
}
