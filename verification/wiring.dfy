/**
 Wiring nodes together (pypeline/graph.py): `_pipe` stores every argument as a
 node and then links each one to the next, appending the target to the
 source's downstream list and the source to the target's upstream list;
 `pipe`, `join` and `fan` are built on it, and the module-level `pipe`
 builds a fresh graph from it.
 */
module Wiring {
  import opened Common
  import opened Blueprints
  import opened Compose

  /** An argument to pipelining: an item to store as a node, or a parameter
      reference (`node.param`) whose edge feeds that named parameter. */
  datatype PipeArg = Plain(item: Item) | Targeted(ref: ParamRef)

  /** The node item a pipelining argument stands for, and the parameter it targets. */
  function Vertex(a: PipeArg): (r: (Item, Option<string>))
    ensures a.Plain? ==> r == (a.item, None)
    ensures a.Targeted? ==> r == (DefItem(a.ref.def), Some(a.ref.param))
  {
    match a
    case Plain(item) => (item, None)
    case Targeted(ref) => (DefItem(ref.def), Some(ref.param))
  }

  /**
   Attribute access `d.key` on a definition, as handed to pipelining.  Only
   names that are not real attributes reach `__getattr__` and give an edge
   descriptor for that parameter.  A real attribute is returned as it is:
   `func` is the node's callable; `rebase` and `update` are bound methods,
   callables named after the method, and `owner` is the owning graph, a
   callable from which no name can be derived (each with the identity
   `obj`); the remaining fields are a string, a tuple or a dictionary, none
   of them callable.
   */
  function Access(d: NodeDef, key: string, obj: nat): (r: PipeArg)
    ensures Vertex(r).1.Some? <==> !RealAttribute(key)
    ensures !RealAttribute(key) ==> Vertex(r) == (DefItem(d), Some(key))
    ensures key == "func" ==> r == Plain(FuncItem(d.func))
  {
    if !RealAttribute(key) then Targeted(d.Attr(key))
    else if key == "func" then Plain(FuncItem(d.func))
    else if key == "rebase" then Plain(FuncItem(Func(obj, MethodName(key), Signature(["owner", "prefix"], None, None))))
    else if key == "update" then Plain(FuncItem(Func(obj, MethodName(key), Signature(["other"], None, None))))
    else if key == "owner" then Plain(FuncItem(Func(obj, Nameless, Signature([], None, Some("kwargs")))))
    else Plain(Unstorable)
  }

  /** Pipelining a data attribute or the owning graph of a definition fails:
      neither can be stored as a node. */
  lemma AccessRefused(bp: Blueprint, prefix: Path, d: NodeDef, key: string, obj: nat, i: nat, items: seq<PipeArg>)
    requires IsView(bp, prefix) && RealAttribute(key) && key !in {"func", "rebase", "update"}
    requires i < |items| && items[i] == Access(d, key, obj)
    ensures StoreNode(bp, prefix, Vertex(Access(d, key, obj)).0, None, None, None).Err?
    ensures StoreVertices(bp, prefix, items).Err?
  {
    StoreVerticesRefused(bp, prefix, items, i);
  }

  /** An item no graph stores unnamed: a non-callable, or a callable from
      which no name can be derived. */
  predicate Unnameable(item: Item)
  {
    item.Unstorable? || (item.FuncItem? && item.func.declared.Nameless?)
  }

  /** A vertex that cannot be stored fails the first loop of `_pipe`. */
  lemma {:induction false} StoreVerticesRefused(bp: Blueprint, prefix: Path, items: seq<PipeArg>, i: nat)
    requires IsView(bp, prefix) && i < |items| && Unnameable(Vertex(items[i]).0)
    ensures StoreVertices(bp, prefix, items).Err?
    decreases |items|
  {
    if i > 0 {
      var (item, param) := Vertex(items[0]);
      if StoreNode(bp, prefix, item, None, None, None).Ok? {
        var bp1 := StoreNode(bp, prefix, item, None, None, None).value.0;
        assert items[1..][i - 1] == items[i];
        StoreVerticesRefused(bp1, prefix, items[1..], i - 1);
      }
    }
  }

  /** The path the vertex of argument `a` resolves to in root `id` at `prefix`. */
  function ArgPath(id: nat, prefix: Path, a: PipeArg): Path
  {
    ItemPath(id, prefix, Vertex(a).0, None)
  }

  /** Items that storing only resolves to a path, without touching the graph. */
  predicate OwnedArg(a: PipeArg, id: nat)
  {
    Owned(Vertex(a).0, id)
  }

  /** The first loop of `_pipe`: stores every argument in order and collects one
      vertex per argument, the stored node's path and the targeted parameter. */
  function StoreVertices(bp: Blueprint, prefix: Path, items: seq<PipeArg>): (r: Result<(Blueprint, seq<Edge>)>)
    requires IsView(bp, prefix)
    ensures items == [] ==> r == Ok((bp, []))
    ensures r.Ok? ==> r.value.0.id == bp.id && IsView(r.value.0, prefix)
    ensures r.Ok? ==> forall p | p in bp.items :: p in r.value.0.items && (bp.items[p].NodeEntry? <==> r.value.0.items[p].NodeEntry?)
    ensures r.Ok? ==> |r.value.1| == |items|
    ensures r.Ok? ==> forall i | 0 <= i < |items| :: r.value.1[i].param == Vertex(items[i]).1
    ensures r.Ok? ==> forall i | 0 <= i < |items| && !OwnedArg(items[i], bp.id) ::
                        IsNode(r.value.0, r.value.1[i].node) && Under(prefix, r.value.1[i].node)
    ensures r.Ok? ==> forall i | 0 <= i < |items| && items[i].Targeted? && items[i].ref.def.owner == bp.id ::
                        r.value.1[i].node == items[i].ref.def.FullPath()
    ensures (exists i | 0 <= i < |items| :: items[i] == Plain(Unstorable)) ==> r.Err?
    decreases |items|
  {
    if items == [] then Ok((bp, []))
    else
      var (item, param) := Vertex(items[0]);
      match StoreNode(bp, prefix, item, None, None, None)
      case Err(e) => Err(e)
      case Ok((bp1, path)) =>
        match StoreVertices(bp1, prefix, items[1..])
        case Err(e) => Err(e)
        case Ok((bp2, vs)) => Ok((bp2, [Edge(path, param)] + vs))
  }

  /** Storing the vertices keeps a graph well formed, keeps every edge list and
      adds only empty ones. */
  lemma {:induction false} StoreVerticesWf(bp: Blueprint, prefix: Path, items: seq<PipeArg>)
    requires Wf(bp) && IsView(bp, prefix)
    ensures StoreVertices(bp, prefix, items).Ok? ==>
              Wf(StoreVertices(bp, prefix, items).value.0) && Extends(bp, StoreVertices(bp, prefix, items).value.0)
    decreases |items|
  {
    if items != [] {
      var (item, param) := Vertex(items[0]);
      StoreNodeWf(bp, prefix, item, None, None, None);
      if StoreNode(bp, prefix, item, None, None, None).Ok? {
        var bp1 := StoreNode(bp, prefix, item, None, None, None).value.0;
        StoreVerticesWf(bp1, prefix, items[1..]);
        if StoreVertices(bp1, prefix, items[1..]).Ok? {
          ExtendsTransitive(bp, bp1, StoreVertices(bp1, prefix, items[1..]).value.0);
        }
      }
    }
  }

  /** Each vertex sits at the path its argument resolves to. */
  lemma {:induction false} StoreVerticesPaths(bp: Blueprint, prefix: Path, items: seq<PipeArg>)
    requires IsView(bp, prefix) && StoreVertices(bp, prefix, items).Ok?
    ensures forall i | 0 <= i < |items| :: StoreVertices(bp, prefix, items).value.1[i].node == ArgPath(bp.id, prefix, items[i])
    decreases |items|
  {
    if items != [] {
      var (item, param) := Vertex(items[0]);
      var bp1 := StoreNode(bp, prefix, item, None, None, None).value.0;
      StorePath(bp, prefix, item, None, None, None);
      StoreVerticesPaths(bp1, prefix, items[1..]);
      forall i | 1 <= i < |items|
        ensures StoreVertices(bp, prefix, items).value.1[i].node == ArgPath(bp.id, prefix, items[i])
      {
        assert items[1..][i - 1] == items[i];
      }
    }
  }

  lemma ExtendsGrows(bp: Blueprint, bp': Blueprint)
    requires Extends(bp, bp')
    ensures Grows(bp, bp')
  {
  }

  /** The downstream edges pipelining the vertices `vs` adds to node `s`, in
      order: every vertex whose predecessor sits at `s`. */
  function Outgoing(vs: seq<Edge>, s: Path): seq<Edge>
  {
    if |vs| < 2 then [] else (if vs[0].node == s then [vs[1]] else []) + Outgoing(vs[1..], s)
  }

  /** The upstream edges pipelining the vertices `vs` adds to node `t`, in
      order: every predecessor of a vertex at `t`, with that vertex's parameter. */
  function Incoming(vs: seq<Edge>, t: Path): seq<Edge>
  {
    if |vs| < 2 then [] else (if vs[1].node == t then [Edge(vs[0].node, vs[1].param)] else []) + Incoming(vs[1..], t)
  }

  /** One step of the second loop of `_pipe`: the edge from vertex `s` to vertex
      `t`, recorded in both maps.  A path without an edge list is a lookup failure. */
  function AddEdge(bp: Blueprint, s: Edge, t: Edge): (r: Result<Blueprint>)
    ensures r.Ok? <==> s.node in bp.down && t.node in bp.up
    ensures r.Err? ==> r.error == NotFound
    ensures r.Ok? ==> r.value.id == bp.id && r.value.items == bp.items
    ensures r.Ok? ==> r.value.down.Keys == bp.down.Keys && r.value.up.Keys == bp.up.Keys
    ensures r.Ok? ==> forall k | k in bp.down ::
              r.value.down[k] == bp.down[k] + (if k == s.node then [t] else [])
    ensures r.Ok? ==> forall k | k in bp.up ::
              r.value.up[k] == bp.up[k] + (if k == t.node then [Edge(s.node, t.param)] else [])
  {
    if s.node in bp.down && t.node in bp.up then
      Ok(bp.(down := bp.down[s.node := bp.down[s.node] + [t]],
             up := bp.up[t.node := bp.up[t.node] + [Edge(s.node, t.param)]]))
    else Err(NotFound)
  }

  /** Every consecutive pair of vertices can be linked: the source has a
      downstream list and the target an upstream list. */
  predicate Linkable(down: set<Path>, up: set<Path>, vs: seq<Edge>)
  {
    |vs| < 2 || (vs[0].node in down && vs[1].node in up && Linkable(down, up, vs[1..]))
  }

  /** `Linkable` asks that every vertex but the last have a downstream list and
      every vertex but the first an upstream list. */
  lemma {:induction false} LinkableAll(down: set<Path>, up: set<Path>, vs: seq<Edge>)
    ensures Linkable(down, up, vs) <==>
              (forall i | 0 <= i < |vs| - 1 :: vs[i].node in down) && (forall i | 1 <= i < |vs| :: vs[i].node in up)
    decreases |vs|
  {
    if |vs| >= 2 {
      LinkableAll(down, up, vs[1..]);
      assert forall i | 0 <= i < |vs| - 1 :: vs[1..][i] == vs[i + 1];
    }
  }

  /** The second loop of `_pipe`: links every vertex to the next, front to back. */
  function Chain(bp: Blueprint, vs: seq<Edge>): (r: Result<Blueprint>)
    ensures r.Ok? <==> Linkable(bp.down.Keys, bp.up.Keys, vs)
    ensures r.Err? ==> r.error == NotFound
    ensures r.Ok? ==> r.value.id == bp.id && r.value.items == bp.items
    ensures r.Ok? ==> r.value.down.Keys == bp.down.Keys && r.value.up.Keys == bp.up.Keys
    decreases |vs|
  {
    if |vs| < 2 then Ok(bp)
    else
      match AddEdge(bp, vs[0], vs[1])
      case Err(e) => Err(e)
      case Ok(bp1) => Chain(bp1, vs[1..])
  }

  lemma ConcatAssoc(a: seq<Edge>, b: seq<Edge>, c: seq<Edge>)
    ensures (a + b) + c == a + (b + c)
  {
  }

  /** Linking two or more vertices is linking the first pair, then the rest. */
  lemma ChainStep(bp: Blueprint, vs: seq<Edge>)
    requires |vs| >= 2 && Chain(bp, vs).Ok?
    ensures AddEdge(bp, vs[0], vs[1]).Ok?
    ensures Chain(bp, vs) == Chain(AddEdge(bp, vs[0], vs[1]).value, vs[1..])
  {
  }

  /** What linking adds below node `k`: the outgoing edges, after the edges already there. */
  lemma {:induction false} ChainDownAt(bp: Blueprint, vs: seq<Edge>, k: Path)
    requires Chain(bp, vs).Ok? && k in bp.down
    ensures Chain(bp, vs).value.down[k] == bp.down[k] + Outgoing(vs, k)
    decreases |vs|
  {
    if |vs| >= 2 {
      var bp1 := AddEdge(bp, vs[0], vs[1]).value;
      ChainDownAt(bp1, vs[1..], k);
      var step := if k == vs[0].node then [vs[1]] else [];
      ChainStep(bp, vs);
      assert bp1.down[k] == bp.down[k] + step;
      assert Outgoing(vs, k) == step + Outgoing(vs[1..], k);
      ConcatAssoc(bp.down[k], step, Outgoing(vs[1..], k));
    }
  }

  /** What linking adds above node `k`: the incoming edges, after the edges already there. */
  lemma {:induction false} ChainUpAt(bp: Blueprint, vs: seq<Edge>, k: Path)
    requires Chain(bp, vs).Ok? && k in bp.up
    ensures Chain(bp, vs).value.up[k] == bp.up[k] + Incoming(vs, k)
    decreases |vs|
  {
    if |vs| >= 2 {
      var bp1 := AddEdge(bp, vs[0], vs[1]).value;
      ChainUpAt(bp1, vs[1..], k);
      var step := if k == vs[1].node then [Edge(vs[0].node, vs[1].param)] else [];
      ChainStep(bp, vs);
      assert bp1.up[k] == bp.up[k] + step;
      assert Incoming(vs, k) == step + Incoming(vs[1..], k);
      ConcatAssoc(bp.up[k], step, Incoming(vs[1..], k));
    }
  }

  /** What linking adds: below each node the outgoing edges, above each node
      the incoming ones, each after the edges already there. */
  lemma ChainEdges(bp: Blueprint, vs: seq<Edge>)
    requires Chain(bp, vs).Ok?
    ensures forall k | k in bp.down :: Chain(bp, vs).value.down[k] == bp.down[k] + Outgoing(vs, k)
    ensures forall k | k in bp.up :: Chain(bp, vs).value.up[k] == bp.up[k] + Incoming(vs, k)
  {
    forall k | k in bp.down
      ensures Chain(bp, vs).value.down[k] == bp.down[k] + Outgoing(vs, k)
    {
      ChainDownAt(bp, vs, k);
    }
    forall k | k in bp.up
      ensures Chain(bp, vs).value.up[k] == bp.up[k] + Incoming(vs, k)
    {
      ChainUpAt(bp, vs, k);
    }
  }

  /** Appending `e` to the list under `k` adds one occurrence of `e` there and nothing elsewhere. */
  lemma AppendCount(m: map<Path, seq<Edge>>, k: Path, e: Edge, k': Path, e': Edge)
    requires k in m
    ensures Occurrences(m[k := m[k] + [e]], k', e') == Occurrences(m, k', e') + (if k' == k && e' == e then 1 else 0)
  {
    if k' == k {
      assert multiset(m[k] + [e]) == multiset(m[k]) + multiset{e};
    }
  }

  /** Recording one edge in both maps keeps them mirror images. */
  lemma AddEdgeMirrored(bp: Blueprint, s: Edge, t: Edge)
    requires Mirrored(bp.down, bp.up) && AddEdge(bp, s, t).Ok?
    ensures Mirrored(AddEdge(bp, s, t).value.down, AddEdge(bp, s, t).value.up)
  {
    var r := AddEdge(bp, s, t).value;
    forall a: Path, b: Path, prm: Option<string>
      ensures Occurrences(r.down, a, Edge(b, prm)) == Occurrences(r.up, b, Edge(a, prm))
    {
      AppendCount(bp.down, s.node, t, a, Edge(b, prm));
      AppendCount(bp.up, t.node, Edge(s.node, t.param), b, Edge(a, prm));
    }
  }

  /** Linking two nodes leaves every edge leading to a node. */
  lemma AddEdgeResolves(bp: Blueprint, s: Edge, t: Edge)
    requires EdgesResolve(bp) && IsNode(bp, s.node) && IsNode(bp, t.node) && AddEdge(bp, s, t).Ok?
    ensures EdgesResolve(AddEdge(bp, s, t).value)
  {
    var r := AddEdge(bp, s, t).value;
    forall k, e | k in r.down && e in r.down[k]
      ensures IsNode(r, e.node)
    {
      if e !in bp.down[k] {
        assert e == t;
      }
    }
    forall k, e | k in r.up && e in r.up[k]
      ensures IsNode(r, e.node)
    {
      if e !in bp.up[k] {
        assert e == Edge(s.node, t.param);
      }
    }
  }

  /** Linking only appends to edge lists. */
  lemma AddEdgeGrows(bp: Blueprint, s: Edge, t: Edge)
    requires AddEdge(bp, s, t).Ok?
    ensures Grows(bp, AddEdge(bp, s, t).value)
  {
    var r := AddEdge(bp, s, t).value;
    forall k | k in bp.down
      ensures r.down[k][..|bp.down[k]|] == bp.down[k]
    {
    }
    forall k | k in bp.up
      ensures r.up[k][..|bp.up[k]|] == bp.up[k]
    {
    }
  }

  /** Linking two nodes keeps a graph well formed, and only grows it. */
  lemma AddEdgeWf(bp: Blueprint, s: Edge, t: Edge)
    requires Wf(bp) && AddEdge(bp, s, t).Ok?
    ensures Wf(AddEdge(bp, s, t).value) && Grows(bp, AddEdge(bp, s, t).value)
  {
    var r := AddEdge(bp, s, t).value;
    AddEdgeMirrored(bp, s, t);
    assert s.node in NodePaths(bp) && t.node in NodePaths(bp);
    AddEdgeResolves(bp, s, t);
    AddEdgeGrows(bp, s, t);
    assert NodePaths(r) == NodePaths(bp);
  }

  /** Linking a chain of nodes keeps a graph well formed, and only grows it. */
  lemma {:induction false} ChainWf(bp: Blueprint, vs: seq<Edge>)
    requires Wf(bp) && Chain(bp, vs).Ok?
    ensures Wf(Chain(bp, vs).value) && Grows(bp, Chain(bp, vs).value)
    decreases |vs|
  {
    if |vs| >= 2 {
      var bp1 := AddEdge(bp, vs[0], vs[1]).value;
      AddEdgeWf(bp, vs[0], vs[1]);
      ChainWf(bp1, vs[1..]);
      GrowsTransitive(bp, bp1, Chain(bp1, vs[1..]).value);
    } else {
      assert Chain(bp, vs).value == bp;
    }
  }

  /** `_pipe(nodes)`: stores the arguments as nodes, then links each to the next. */
  function PipeRaw(bp: Blueprint, prefix: Path, items: seq<PipeArg>): (r: Result<Blueprint>)
    requires IsView(bp, prefix)
    ensures r.Ok? ==> r.value.id == bp.id && IsView(r.value, prefix)
    ensures (exists i | 0 <= i < |items| :: items[i] == Plain(Unstorable)) ==> r.Err?
  {
    match StoreVertices(bp, prefix, items)
    case Err(e) => Err(e)
    case Ok((bp1, vs)) => Chain(bp1, vs)
  }

  /** The vertices `_pipe` links, once its arguments are stored. */
  function PipeVertices(bp: Blueprint, prefix: Path, items: seq<PipeArg>): seq<Edge>
    requires IsView(bp, prefix) && StoreVertices(bp, prefix, items).Ok?
  {
    StoreVertices(bp, prefix, items).value.1
  }

  /**
   What `_pipe` does to the edge maps: every list ends with the edges the
   vertex chain adds at its key, after the edges the list held before (none,
   for a node the call stored).  The graph stays well formed and only grows.
   */
  lemma PipeWires(bp: Blueprint, prefix: Path, items: seq<PipeArg>)
    requires Wf(bp) && IsView(bp, prefix) && PipeRaw(bp, prefix, items).Ok?
    ensures Wf(PipeRaw(bp, prefix, items).value) && Grows(bp, PipeRaw(bp, prefix, items).value)
    ensures var r, vs := PipeRaw(bp, prefix, items).value, PipeVertices(bp, prefix, items);
      && |vs| == |items|
      && (forall i | 0 <= i < |items| :: vs[i].param == Vertex(items[i]).1)
      && (forall i | 0 <= i < |items| && !OwnedArg(items[i], bp.id) :: IsNode(r, vs[i].node))
      && (forall k | k in r.down :: r.down[k] == (if k in bp.down then bp.down[k] else []) + Outgoing(vs, k))
      && (forall k | k in r.up :: r.up[k] == (if k in bp.up then bp.up[k] else []) + Incoming(vs, k))
  {
    var (bp1, vs) := StoreVertices(bp, prefix, items).value;
    var r := Chain(bp1, vs).value;
    StoreVerticesWf(bp, prefix, items);
    ChainWf(bp1, vs);
    ChainEdges(bp1, vs);
    ExtendsGrows(bp, bp1);
    GrowsTransitive(bp, bp1, r);
  }

  /** `pipe(*nodes)`: at least two arguments, then `_pipe`. */
  function Pipe(bp: Blueprint, prefix: Path, items: seq<PipeArg>): (r: Result<Blueprint>)
    requires IsView(bp, prefix)
    ensures |items| < 2 ==> r == Err(ArityError)
    ensures |items| >= 2 ==> r == PipeRaw(bp, prefix, items)
  {
    if |items| < 2 then Err(ArityError) else PipeRaw(bp, prefix, items)
  }

  /** `join(from_nodes, target)`: pipes every source into the target, in order. */
  function Join(bp: Blueprint, prefix: Path, froms: seq<PipeArg>, target: PipeArg): (r: Result<Blueprint>)
    requires IsView(bp, prefix)
    ensures froms == [] ==> r == Ok(bp)
    ensures r.Ok? ==> r.value.id == bp.id && IsView(r.value, prefix)
    ensures froms != [] && target == Plain(Unstorable) ==> r.Err?
    decreases |froms|
  {
    if froms == [] then Ok(bp)
    else
      match PipeRaw(bp, prefix, [froms[0], target])
      case Err(e) => Err(e)
      case Ok(bp1) => Join(bp1, prefix, froms[1..], target)
  }

  /** `fan(from_node, targets)`: pipes the source into every target, in order. */
  function Fan(bp: Blueprint, prefix: Path, from: PipeArg, targets: seq<PipeArg>): (r: Result<Blueprint>)
    requires IsView(bp, prefix)
    ensures targets == [] ==> r == Ok(bp)
    ensures r.Ok? ==> r.value.id == bp.id && IsView(r.value, prefix)
    ensures targets != [] && from == Plain(Unstorable) ==> r.Err?
    decreases |targets|
  {
    if targets == [] then Ok(bp)
    else
      match PipeRaw(bp, prefix, [from, targets[0]])
      case Err(e) => Err(e)
      case Ok(bp1) => Fan(bp1, prefix, from, targets[1..])
  }

  /** `join` keeps a graph well formed, and only grows it. */
  lemma {:induction false} JoinWf(bp: Blueprint, prefix: Path, froms: seq<PipeArg>, target: PipeArg)
    requires Wf(bp) && IsView(bp, prefix) && Join(bp, prefix, froms, target).Ok?
    ensures Wf(Join(bp, prefix, froms, target).value) && Grows(bp, Join(bp, prefix, froms, target).value)
    decreases |froms|
  {
    if froms != [] {
      var bp1 := PipeRaw(bp, prefix, [froms[0], target]).value;
      PipeWires(bp, prefix, [froms[0], target]);
      JoinWf(bp1, prefix, froms[1..], target);
      GrowsTransitive(bp, bp1, Join(bp1, prefix, froms[1..], target).value);
    } else {
      assert Join(bp, prefix, froms, target).value == bp;
    }
  }

  /** `fan` keeps a graph well formed, and only grows it. */
  lemma {:induction false} FanWf(bp: Blueprint, prefix: Path, from: PipeArg, targets: seq<PipeArg>)
    requires Wf(bp) && IsView(bp, prefix) && Fan(bp, prefix, from, targets).Ok?
    ensures Wf(Fan(bp, prefix, from, targets).value) && Grows(bp, Fan(bp, prefix, from, targets).value)
    decreases |targets|
  {
    if targets != [] {
      var bp1 := PipeRaw(bp, prefix, [from, targets[0]]).value;
      PipeWires(bp, prefix, [from, targets[0]]);
      FanWf(bp1, prefix, from, targets[1..]);
      GrowsTransitive(bp, bp1, Fan(bp1, prefix, from, targets[1..]).value);
    } else {
      assert Fan(bp, prefix, from, targets).value == bp;
    }
  }

  /** An edge map read as a total function: a key without a list holds no edges. */
  function ListAt(m: map<Path, seq<Edge>>, k: Path): seq<Edge>
  {
    if k in m then m[k] else []
  }

  /** Every vertex `_pipe` links but the last has a downstream list, and every
      one but the first an upstream list. */
  lemma PipeLinked(bp: Blueprint, prefix: Path, items: seq<PipeArg>)
    requires IsView(bp, prefix) && PipeRaw(bp, prefix, items).Ok?
    ensures Linkable(PipeRaw(bp, prefix, items).value.down.Keys, PipeRaw(bp, prefix, items).value.up.Keys, PipeVertices(bp, prefix, items))
  {
  }

  /** Pipelining two vertices adds one downstream edge, at the first one. */
  lemma PairDown(before: map<Path, seq<Edge>>, after: map<Path, seq<Edge>>, vs: seq<Edge>, k: Path)
    requires |vs| == 2 && before.Keys <= after.Keys && vs[0].node in after
    requires forall p | p in after :: after[p] == (if p in before then before[p] else []) + Outgoing(vs, p)
    ensures ListAt(after, k) == ListAt(before, k) + (if k == vs[0].node then [vs[1]] else [])
  {
    assert Outgoing(vs, k) == (if vs[0].node == k then [vs[1]] else []) + Outgoing(vs[1..], k);
  }

  /** Pipelining two vertices adds one upstream edge, at the second one. */
  lemma PairUp(before: map<Path, seq<Edge>>, after: map<Path, seq<Edge>>, vs: seq<Edge>, k: Path)
    requires |vs| == 2 && before.Keys <= after.Keys && vs[1].node in after
    requires forall p | p in after :: after[p] == (if p in before then before[p] else []) + Incoming(vs, p)
    ensures ListAt(after, k) == ListAt(before, k) + (if k == vs[1].node then [Edge(vs[0].node, vs[1].param)] else [])
  {
    assert Incoming(vs, k) == (if vs[1].node == k then [Edge(vs[0].node, vs[1].param)] else []) + Incoming(vs[1..], k);
  }

  /** `PairWires`, at one key. */
  lemma PairWiresAt(bp: Blueprint, prefix: Path, a: PipeArg, b: PipeArg, k: Path)
    requires Wf(bp) && IsView(bp, prefix) && PipeRaw(bp, prefix, [a, b]).Ok?
    ensures Wf(PipeRaw(bp, prefix, [a, b]).value) && Grows(bp, PipeRaw(bp, prefix, [a, b]).value)
    ensures ListAt(PipeRaw(bp, prefix, [a, b]).value.down, k)
              == ListAt(bp.down, k) + (if k == ArgPath(bp.id, prefix, a) then [Edge(ArgPath(bp.id, prefix, b), Vertex(b).1)] else [])
    ensures ListAt(PipeRaw(bp, prefix, [a, b]).value.up, k)
              == ListAt(bp.up, k) + (if k == ArgPath(bp.id, prefix, b) then [Edge(ArgPath(bp.id, prefix, a), Vertex(b).1)] else [])
  {
    var items := [a, b];
    var vs := PipeVertices(bp, prefix, items);
    var r := PipeRaw(bp, prefix, items).value;
    PipeWires(bp, prefix, items);
    PipeLinked(bp, prefix, items);
    StoreVerticesPaths(bp, prefix, items);
    assert vs[0].node == ArgPath(bp.id, prefix, a) && vs[1].node == ArgPath(bp.id, prefix, b);
    PairDown(bp.down, r.down, vs, k);
    PairUp(bp.up, r.up, vs, k);
  }

  /** `_pipe` on two arguments records one edge, from the first argument's
      node to the second's, after the edges already listed, and nothing else. */
  lemma PairWires(bp: Blueprint, prefix: Path, a: PipeArg, b: PipeArg)
    requires Wf(bp) && IsView(bp, prefix) && PipeRaw(bp, prefix, [a, b]).Ok?
    ensures Wf(PipeRaw(bp, prefix, [a, b]).value) && Grows(bp, PipeRaw(bp, prefix, [a, b]).value)
    ensures forall k :: ListAt(PipeRaw(bp, prefix, [a, b]).value.down, k)
              == ListAt(bp.down, k) + (if k == ArgPath(bp.id, prefix, a) then [Edge(ArgPath(bp.id, prefix, b), Vertex(b).1)] else [])
    ensures forall k :: ListAt(PipeRaw(bp, prefix, [a, b]).value.up, k)
              == ListAt(bp.up, k) + (if k == ArgPath(bp.id, prefix, b) then [Edge(ArgPath(bp.id, prefix, a), Vertex(b).1)] else [])
  {
    PipeWires(bp, prefix, [a, b]);
    forall k
      ensures ListAt(PipeRaw(bp, prefix, [a, b]).value.down, k)
              == ListAt(bp.down, k) + (if k == ArgPath(bp.id, prefix, a) then [Edge(ArgPath(bp.id, prefix, b), Vertex(b).1)] else [])
      ensures ListAt(PipeRaw(bp, prefix, [a, b]).value.up, k)
              == ListAt(bp.up, k) + (if k == ArgPath(bp.id, prefix, b) then [Edge(ArgPath(bp.id, prefix, a), Vertex(b).1)] else [])
    {
      PairWiresAt(bp, prefix, a, b, k);
    }
  }

  /** Joining one or more sources pipes the first into the target, then the rest. */
  lemma JoinStep(bp: Blueprint, prefix: Path, froms: seq<PipeArg>, target: PipeArg)
    requires IsView(bp, prefix) && froms != [] && Join(bp, prefix, froms, target).Ok?
    ensures PipeRaw(bp, prefix, [froms[0], target]).Ok?
    ensures Join(bp, prefix, froms, target) == Join(PipeRaw(bp, prefix, [froms[0], target]).value, prefix, froms[1..], target)
  {
  }

  /** Fanning to one or more targets pipes the source into the first, then the rest. */
  lemma FanStep(bp: Blueprint, prefix: Path, from: PipeArg, targets: seq<PipeArg>)
    requires IsView(bp, prefix) && targets != [] && Fan(bp, prefix, from, targets).Ok?
    ensures PipeRaw(bp, prefix, [from, targets[0]]).Ok?
    ensures Fan(bp, prefix, from, targets) == Fan(PipeRaw(bp, prefix, [from, targets[0]]).value, prefix, from, targets[1..])
  {
  }

  /** The upstream edges `join` records at its target: one per source, in order. */
  function Feeds(id: nat, prefix: Path, froms: seq<PipeArg>, param: Option<string>): seq<Edge>
    decreases |froms|
  {
    if froms == [] then [] else [Edge(ArgPath(id, prefix, froms[0]), param)] + Feeds(id, prefix, froms[1..], param)
  }

  /** The downstream edges `join` records at node `k`: the target's vertex,
      once for every source at `k`. */
  function Hits(id: nat, prefix: Path, froms: seq<PipeArg>, k: Path, t: Edge): seq<Edge>
    decreases |froms|
  {
    if froms == [] then [] else (if ArgPath(id, prefix, froms[0]) == k then [t] else []) + Hits(id, prefix, froms[1..], k, t)
  }

  /** The downstream edges `fan` records at its source: one per target, in order. */
  function Targets(id: nat, prefix: Path, targets: seq<PipeArg>): seq<Edge>
    decreases |targets|
  {
    if targets == [] then []
    else [Edge(ArgPath(id, prefix, targets[0]), Vertex(targets[0]).1)] + Targets(id, prefix, targets[1..])
  }

  /** The upstream edges `fan` records at node `k`: the source, once for every
      target at `k`, with that target's parameter. */
  function FanIn(id: nat, prefix: Path, targets: seq<PipeArg>, k: Path, s: Path): seq<Edge>
    decreases |targets|
  {
    if targets == [] then []
    else (if ArgPath(id, prefix, targets[0]) == k then [Edge(s, Vertex(targets[0]).1)] else []) + FanIn(id, prefix, targets[1..], k, s)
  }

  lemma {:induction false} JoinUpAt(bp: Blueprint, prefix: Path, froms: seq<PipeArg>, target: PipeArg, k: Path)
    requires Wf(bp) && IsView(bp, prefix) && Join(bp, prefix, froms, target).Ok?
    ensures ListAt(Join(bp, prefix, froms, target).value.up, k)
            == ListAt(bp.up, k) + (if k == ArgPath(bp.id, prefix, target) then Feeds(bp.id, prefix, froms, Vertex(target).1) else [])
    decreases |froms|
  {
    if froms != [] {
      JoinStep(bp, prefix, froms, target);
      var bp1 := PipeRaw(bp, prefix, [froms[0], target]).value;
      PairWiresAt(bp, prefix, froms[0], target, k);
      JoinUpAt(bp1, prefix, froms[1..], target, k);
      if k == ArgPath(bp.id, prefix, target) {
        var step := [Edge(ArgPath(bp.id, prefix, froms[0]), Vertex(target).1)];
        assert Feeds(bp.id, prefix, froms, Vertex(target).1) == step + Feeds(bp.id, prefix, froms[1..], Vertex(target).1);
        ConcatAssoc(ListAt(bp.up, k), step, Feeds(bp.id, prefix, froms[1..], Vertex(target).1));
      }
    } else {
      assert Join(bp, prefix, froms, target).value == bp;
    }
  }

  lemma HitsStep(id: nat, prefix: Path, froms: seq<PipeArg>, k: Path, t: Edge)
    requires froms != []
    ensures Hits(id, prefix, froms, k, t) == (if k == ArgPath(id, prefix, froms[0]) then [t] else []) + Hits(id, prefix, froms[1..], k, t)
  {
  }

  lemma {:induction false} JoinDownAt(bp: Blueprint, prefix: Path, froms: seq<PipeArg>, target: PipeArg, k: Path)
    requires Wf(bp) && IsView(bp, prefix) && Join(bp, prefix, froms, target).Ok?
    ensures ListAt(Join(bp, prefix, froms, target).value.down, k)
            == ListAt(bp.down, k) + Hits(bp.id, prefix, froms, k, Edge(ArgPath(bp.id, prefix, target), Vertex(target).1))
    decreases |froms|
  {
    if froms != [] {
      JoinStep(bp, prefix, froms, target);
      var bp1 := PipeRaw(bp, prefix, [froms[0], target]).value;
      PairWiresAt(bp, prefix, froms[0], target, k);
      var t := Edge(ArgPath(bp.id, prefix, target), Vertex(target).1);
      var step := if k == ArgPath(bp.id, prefix, froms[0]) then [t] else [];
      assert ListAt(bp1.down, k) == ListAt(bp.down, k) + step;
      JoinDownAt(bp1, prefix, froms[1..], target, k);
      HitsStep(bp.id, prefix, froms, k, t);
      ConcatAssoc(ListAt(bp.down, k), step, Hits(bp.id, prefix, froms[1..], k, t));
    } else {
      assert Join(bp, prefix, froms, target).value == bp;
    }
  }

  /**
   What `join(from_nodes, target)` records: the target's upstream list gains
   one edge per source, in order, each with the target's parameter; every
   source's downstream list gains the target's vertex, once per time it is
   listed as a source; nothing else changes.
   */
  lemma JoinEdges(bp: Blueprint, prefix: Path, froms: seq<PipeArg>, target: PipeArg)
    requires Wf(bp) && IsView(bp, prefix) && Join(bp, prefix, froms, target).Ok?
    ensures var r, t := Join(bp, prefix, froms, target).value, Edge(ArgPath(bp.id, prefix, target), Vertex(target).1);
      && (forall k :: ListAt(r.up, k) == ListAt(bp.up, k) + (if k == t.node then Feeds(bp.id, prefix, froms, t.param) else []))
      && (forall k :: ListAt(r.down, k) == ListAt(bp.down, k) + Hits(bp.id, prefix, froms, k, t))
  {
    forall k
      ensures ListAt(Join(bp, prefix, froms, target).value.up, k)
              == ListAt(bp.up, k) + (if k == ArgPath(bp.id, prefix, target) then Feeds(bp.id, prefix, froms, Vertex(target).1) else [])
    {
      JoinUpAt(bp, prefix, froms, target, k);
    }
    forall k
      ensures ListAt(Join(bp, prefix, froms, target).value.down, k)
              == ListAt(bp.down, k) + Hits(bp.id, prefix, froms, k, Edge(ArgPath(bp.id, prefix, target), Vertex(target).1))
    {
      JoinDownAt(bp, prefix, froms, target, k);
    }
  }

  lemma {:induction false} FanDownAt(bp: Blueprint, prefix: Path, from: PipeArg, targets: seq<PipeArg>, k: Path)
    requires Wf(bp) && IsView(bp, prefix) && Fan(bp, prefix, from, targets).Ok?
    ensures ListAt(Fan(bp, prefix, from, targets).value.down, k)
            == ListAt(bp.down, k) + (if k == ArgPath(bp.id, prefix, from) then Targets(bp.id, prefix, targets) else [])
    decreases |targets|
  {
    if targets != [] {
      FanStep(bp, prefix, from, targets);
      var bp1 := PipeRaw(bp, prefix, [from, targets[0]]).value;
      PairWiresAt(bp, prefix, from, targets[0], k);
      FanDownAt(bp1, prefix, from, targets[1..], k);
      if k == ArgPath(bp.id, prefix, from) {
        var step := [Edge(ArgPath(bp.id, prefix, targets[0]), Vertex(targets[0]).1)];
        assert Targets(bp.id, prefix, targets) == step + Targets(bp.id, prefix, targets[1..]);
        ConcatAssoc(ListAt(bp.down, k), step, Targets(bp.id, prefix, targets[1..]));
      }
    } else {
      assert Fan(bp, prefix, from, targets).value == bp;
    }
  }

  lemma {:induction false} FanUpAt(bp: Blueprint, prefix: Path, from: PipeArg, targets: seq<PipeArg>, k: Path)
    requires Wf(bp) && IsView(bp, prefix) && Fan(bp, prefix, from, targets).Ok?
    ensures ListAt(Fan(bp, prefix, from, targets).value.up, k)
            == ListAt(bp.up, k) + FanIn(bp.id, prefix, targets, k, ArgPath(bp.id, prefix, from))
    decreases |targets|
  {
    if targets != [] {
      FanStep(bp, prefix, from, targets);
      var bp1 := PipeRaw(bp, prefix, [from, targets[0]]).value;
      PairWiresAt(bp, prefix, from, targets[0], k);
      var s := ArgPath(bp.id, prefix, from);
      FanUpAt(bp1, prefix, from, targets[1..], k);
      var step := if k == ArgPath(bp.id, prefix, targets[0]) then [Edge(s, Vertex(targets[0]).1)] else [];
      assert FanIn(bp.id, prefix, targets, k, s) == step + FanIn(bp.id, prefix, targets[1..], k, s);
      ConcatAssoc(ListAt(bp.up, k), step, FanIn(bp.id, prefix, targets[1..], k, s));
    } else {
      assert Fan(bp, prefix, from, targets).value == bp;
    }
  }

  /**
   What `fan(from_node, targets)` records: the source's downstream list gains
   one edge per target, in order, each with that target's parameter; every
   target's upstream list gains the source, once per time it is listed as a
   target; nothing else changes.
   */
  lemma FanEdges(bp: Blueprint, prefix: Path, from: PipeArg, targets: seq<PipeArg>)
    requires Wf(bp) && IsView(bp, prefix) && Fan(bp, prefix, from, targets).Ok?
    ensures var r, s := Fan(bp, prefix, from, targets).value, ArgPath(bp.id, prefix, from);
      && (forall k :: ListAt(r.down, k) == ListAt(bp.down, k) + (if k == s then Targets(bp.id, prefix, targets) else []))
      && (forall k :: ListAt(r.up, k) == ListAt(bp.up, k) + FanIn(bp.id, prefix, targets, k, s))
  {
    forall k
      ensures ListAt(Fan(bp, prefix, from, targets).value.down, k)
              == ListAt(bp.down, k) + (if k == ArgPath(bp.id, prefix, from) then Targets(bp.id, prefix, targets) else [])
    {
      FanDownAt(bp, prefix, from, targets, k);
    }
    forall k
      ensures ListAt(Fan(bp, prefix, from, targets).value.up, k)
              == ListAt(bp.up, k) + FanIn(bp.id, prefix, targets, k, ArgPath(bp.id, prefix, from))
    {
      FanUpAt(bp, prefix, from, targets, k);
    }
  }

  /** The module-level `pipe(*args)` as written: a single argument is handed to
      `Graph` inside its argument tuple, which no graph can store. */
  function PipeGraphAsWritten(id: nat, items: seq<PipeArg>): (r: Result<Blueprint>)
    requires forall i | 0 <= i < |items| :: !OwnedArg(items[i], id)
    ensures r.Ok? ==> r.value.id == id && Wf(r.value)
  {
    if |items| == 1 then NewGraph(id, [NodeArg(Unstorable)], [])
    else
      PipeWiresEmpty(id, items);
      PipeRaw(EmptyGraph(id), [], items)
  }

  /** The module-level `pipe(*args)` as evidently intended: a single argument is
      stored on its own in a fresh graph; otherwise a fresh graph is piped. */
  function PipeGraph(id: nat, items: seq<PipeArg>): (r: Result<Blueprint>)
    requires forall i | 0 <= i < |items| :: !OwnedArg(items[i], id)
    ensures r.Ok? ==> r.value.id == id && Wf(r.value)
    ensures items == [] ==> r == Ok(EmptyGraph(id))
    ensures |items| == 1 && items[0].Targeted? ==> r == Err(Unsupported)
  {
    if |items| == 1 then
      match items[0]
      case Plain(item) =>
        assert OwnedArg(items[0], id) == Owned(item, id);
        NewGraph(id, [NodeArg(item)], [])
      case Targeted(_) => Err(Unsupported)
    else
      PipeWiresEmpty(id, items);
      PipeRaw(EmptyGraph(id), [], items)
  }

  lemma PipeWiresEmpty(id: nat, items: seq<PipeArg>)
    ensures PipeRaw(EmptyGraph(id), [], items).Ok? ==> Wf(PipeRaw(EmptyGraph(id), [], items).value)
    ensures items == [] ==> PipeRaw(EmptyGraph(id), [], items) == Ok(EmptyGraph(id))
  {
    if PipeRaw(EmptyGraph(id), [], items).Ok? {
      PipeWires(EmptyGraph(id), [], items);
    }
  }

  /** As written, the module-level `pipe` rejects every single argument, even a
      plain named function. */
  lemma PipeSingleRejected(id: nat, item: PipeArg)
    requires !OwnedArg(item, id)
    ensures PipeGraphAsWritten(id, [item]) == Err(Unsupported)
  {
  }

  /** As intended, a single named function becomes a graph holding just that node. */
  lemma PipeSingleStored(id: nat, f: Func, n: string)
    requires f.declared == FunctionName(n) && n != "<lambda>"
    ensures PipeGraph(id, [Plain(FuncItem(f))]).Ok?
    ensures var g := PipeGraph(id, [Plain(FuncItem(f))]).value;
      && g.items.Keys == {[n]}
      && IsNode(g, [n]) && g.items[[n]].def == MakeNodeDef(id, f, [], n, None, None)
      && g.down == map[[n] := []] && g.up == map[[n] := []]
  {
    var e, d := EmptyGraph(id), MakeNodeDef(id, f, [], n, None, None);
    assert d.FullPath() == [n];
    var stored := StoreNodeDef(e, d);
    assert StoreNode(e, [], FuncItem(f), None, None, None) == stored;
    assert Arguments([NodeArg(FuncItem(f))], []) == [(None, NodeArg(FuncItem(f)))];
    assert StoreAll(e, [], [(None, NodeArg(FuncItem(f)))]) == StoreAll(stored.value.0, [], []);
  }
}
