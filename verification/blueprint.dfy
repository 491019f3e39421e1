/**
 The blueprint graph (pypeline/graph.py): a root graph and its nested
 sub-graphs, stored flat.  Every item lives at its absolute path; a sub-graph
 is a group entry plus the "view" of the root that uses its path as prefix.
 The two edge maps belong to the root and are keyed by absolute node path.
 */
module Blueprints {
  import opened Common

  /** What a name in a graph holds: a node definition or a nested sub-graph. */
  datatype Entry = NodeEntry(def: NodeDef) | GroupEntry

  /** A root graph: its identity, its items by absolute path and the shared
      downstream and upstream edge maps. */
  datatype Blueprint = Blueprint(id: nat, items: map<Path, Entry>,
                                 down: map<Path, seq<Edge>>, up: map<Path, seq<Edge>>)

  predicate IsNode(bp: Blueprint, p: Path)
  {
    p in bp.items && bp.items[p].NodeEntry?
  }

  predicate IsGroup(bp: Blueprint, p: Path)
  {
    p in bp.items && bp.items[p].GroupEntry?
  }

  /** A prefix some graph object can stand at: the root itself or a sub-graph. */
  predicate IsView(bp: Blueprint, prefix: Path)
  {
    prefix == [] || IsGroup(bp, prefix)
  }

  function NodePaths(bp: Blueprint): set<Path>
  {
    set p | p in bp.items && bp.items[p].NodeEntry?
  }

  function Parent(p: Path): Path
    requires |p| > 0
  {
    p[..|p| - 1]
  }

  /** How often edge `e` is listed under key `k`. */
  function Occurrences(edges: map<Path, seq<Edge>>, k: Path, e: Edge): nat
  {
    if k in edges then multiset(edges[k])[e] else 0
  }

  /** Downstream and upstream maps are mirror images: `t` is listed under `s`
      downstream with parameter `prm` exactly as often as `s` is listed under
      `t` upstream with the same parameter. */
  ghost predicate Mirrored(down: map<Path, seq<Edge>>, up: map<Path, seq<Edge>>)
  {
    forall s: Path, t: Path, prm: Option<string> ::
      Occurrences(down, s, Edge(t, prm)) == Occurrences(up, t, Edge(s, prm))
  }

  /** Every item hangs below a sub-graph that is itself stored (or the root). */
  ghost predicate TreeShaped(items: map<Path, Entry>)
  {
    forall p | p in items :: |p| > 0 && (|p| > 1 ==> Parent(p) in items && items[Parent(p)].GroupEntry?)
  }

  /** Every definition is owned by this root and knows the path it is stored at. */
  ghost predicate NodesPlaced(bp: Blueprint)
  {
    forall p | p in bp.items && bp.items[p].NodeEntry? ::
      bp.items[p].def.owner == bp.id && bp.items[p].def.FullPath() == p
  }

  /** Both edge maps hold a list for every stored node and for nothing else. */
  ghost predicate EdgesKeyed(bp: Blueprint)
  {
    bp.down.Keys == NodePaths(bp) && bp.up.Keys == NodePaths(bp)
  }

  /** Every edge leads to a stored node. */
  ghost predicate EdgesResolve(bp: Blueprint)
  {
    && (forall s, e | s in bp.down && e in bp.down[s] :: IsNode(bp, e.node))
    && (forall t, e | t in bp.up && e in bp.up[t] :: IsNode(bp, e.node))
  }

  /** The invariant every graph built through the public operations keeps. */
  ghost predicate Wf(bp: Blueprint)
  {
    && TreeShaped(bp.items)
    && NodesPlaced(bp)
    && EdgesKeyed(bp)
    && EdgesResolve(bp)
    && Mirrored(bp.down, bp.up)
  }

  /** `Graph()`: a root with no items and empty edge maps. */
  function EmptyGraph(id: nat): (bp: Blueprint)
    ensures Wf(bp) && bp.id == id && NodePaths(bp) == {}
  {
    Blueprint(id, map[], map[], map[])
  }

  /** Item lookup through a graph object at `prefix` (`graph[name]`, `graph.name`). */
  function Lookup(bp: Blueprint, prefix: Path, name: string): (r: Result<Entry>)
    ensures r.Ok? <==> prefix + [name] in bp.items
    ensures r.Ok? ==> r.value == bp.items[prefix + [name]]
    ensures r.Err? ==> r.error == NotFound
  {
    if prefix + [name] in bp.items then Ok(bp.items[prefix + [name]]) else Err(NotFound)
  }

  /** Adding empty edge lists under a fresh key keeps the maps mirrored. */
  lemma MirroredAddEmpty(down: map<Path, seq<Edge>>, up: map<Path, seq<Edge>>, p: Path)
    requires Mirrored(down, up) && p !in down && p !in up
    ensures Mirrored(down[p := []], up[p := []])
  {
    forall s: Path, t: Path, prm: Option<string>
      ensures Occurrences(down[p := []], s, Edge(t, prm)) == Occurrences(up[p := []], t, Edge(s, prm))
    {
      assert Occurrences(down[p := []], s, Edge(t, prm)) == Occurrences(down, s, Edge(t, prm));
      assert Occurrences(up[p := []], t, Edge(s, prm)) == Occurrences(up, t, Edge(s, prm));
    }
  }

  /**
   Storing a node definition through the graph object at `d.prefix`: a new name
   is inserted with empty edge lists; a name that holds a node is overridden in
   place (path and edges kept, callable and arguments replaced); a name that
   holds a sub-graph is a conflict.  Returns the node's path.
   */
  function StoreNodeDef(bp: Blueprint, d: NodeDef): (r: Result<(Blueprint, Path)>)
    requires IsView(bp, d.prefix)
    ensures r.Err? <==> IsGroup(bp, d.FullPath())
    ensures r.Err? ==> r.error == StructureConflict
    ensures r.Ok? ==> r.value.1 == d.FullPath() && IsNode(r.value.0, d.FullPath()) && r.value.0.id == bp.id
    ensures r.Ok? ==> forall p | p in bp.items && p != d.FullPath() :: p in r.value.0.items && r.value.0.items[p] == bp.items[p]
    ensures r.Ok? ==> r.value.0.items.Keys == bp.items.Keys + {d.FullPath()}
    ensures r.Ok? && d.FullPath() !in bp.items ==>
              && r.value.0.items[d.FullPath()].def == d
              && r.value.0.down == bp.down[d.FullPath() := []]
              && r.value.0.up == bp.up[d.FullPath() := []]
    ensures r.Ok? && IsNode(bp, d.FullPath()) ==>
              && r.value.0.items[d.FullPath()].def == bp.items[d.FullPath()].def.Update(d)
              && r.value.0.down == bp.down
              && r.value.0.up == bp.up
  {
    var p := d.FullPath();
    if p in bp.items then
      match bp.items[p]
      case GroupEntry => Err(StructureConflict)
      case NodeEntry(existing) =>
        Ok((bp.(items := bp.items[p := NodeEntry(existing.Update(d))]), p))
    else
      Ok((bp.(items := bp.items[p := NodeEntry(d)], down := bp.down[p := []], up := bp.up[p := []]), p))
  }

  /** A successful store leaves a well-formed blueprint that extends `bp`. */
  ghost predicate StoredWf(bp: Blueprint, r: Result<(Blueprint, Path)>)
  {
    r.Ok? ==> Wf(r.value.0) && Extends(bp, r.value.0)
  }

  lemma StoreNodeDefWf(bp: Blueprint, d: NodeDef)
    requires Wf(bp) && IsView(bp, d.prefix) && d.owner == bp.id
    ensures StoredWf(bp, StoreNodeDef(bp, d))
  {
    var p := d.FullPath();
    if StoreNodeDef(bp, d).Ok? {
      var bp' := StoreNodeDef(bp, d).value.0;
      if p in bp.items {
        OverrideWf(bp, p, bp.items[p].def.Update(d));
      } else {
        InsertWf(bp, d);
      }
    }
  }

  lemma OverrideWf(bp: Blueprint, p: Path, d: NodeDef)
    requires Wf(bp) && IsNode(bp, p) && d.owner == bp.id && d.FullPath() == p
    ensures Wf(bp.(items := bp.items[p := NodeEntry(d)]))
    ensures Extends(bp, bp.(items := bp.items[p := NodeEntry(d)]))
  {
    var bp' := bp.(items := bp.items[p := NodeEntry(d)]);
    SameKindsSameNodes(bp, bp');
    OverrideShape(bp, p, d);
  }

  lemma SameKindsSameNodes(bp: Blueprint, bp': Blueprint)
    requires bp.items.Keys == bp'.items.Keys
    requires forall p | p in bp.items :: bp.items[p].NodeEntry? == bp'.items[p].NodeEntry?
    ensures NodePaths(bp) == NodePaths(bp')
  {
  }

  lemma OverrideShape(bp: Blueprint, p: Path, d: NodeDef)
    requires TreeShaped(bp.items) && NodesPlaced(bp) && EdgesResolve(bp)
    requires IsNode(bp, p) && d.owner == bp.id && d.FullPath() == p
    ensures TreeShaped(bp.items[p := NodeEntry(d)])
    ensures NodesPlaced(bp.(items := bp.items[p := NodeEntry(d)]))
    ensures EdgesResolve(bp.(items := bp.items[p := NodeEntry(d)]))
  {
  }

  lemma InsertWf(bp: Blueprint, d: NodeDef)
    requires Wf(bp) && IsView(bp, d.prefix) && d.owner == bp.id && d.FullPath() !in bp.items
    ensures Wf(bp.(items := bp.items[d.FullPath() := NodeEntry(d)], down := bp.down[d.FullPath() := []], up := bp.up[d.FullPath() := []]))
    ensures Extends(bp, bp.(items := bp.items[d.FullPath() := NodeEntry(d)], down := bp.down[d.FullPath() := []], up := bp.up[d.FullPath() := []]))
  {
    InsertKeyed(bp, d);
    MirroredAddEmpty(bp.down, bp.up, d.FullPath());
    InsertShape(bp, d);
    InsertExtends(bp, d);
  }

  lemma InsertKeyed(bp: Blueprint, d: NodeDef)
    requires EdgesKeyed(bp) && d.FullPath() !in bp.items
    ensures EdgesKeyed(bp.(items := bp.items[d.FullPath() := NodeEntry(d)], down := bp.down[d.FullPath() := []], up := bp.up[d.FullPath() := []]))
  {
    InsertNodePaths(bp, d);
  }

  lemma InsertExtends(bp: Blueprint, d: NodeDef)
    requires bp.down.Keys <= bp.items.Keys && bp.up.Keys <= bp.items.Keys && d.FullPath() !in bp.items
    ensures Extends(bp, bp.(items := bp.items[d.FullPath() := NodeEntry(d)], down := bp.down[d.FullPath() := []], up := bp.up[d.FullPath() := []]))
  {
  }

  lemma InsertNodePaths(bp: Blueprint, d: NodeDef)
    requires d.FullPath() !in bp.items
    ensures NodePaths(bp.(items := bp.items[d.FullPath() := NodeEntry(d)])) == NodePaths(bp) + {d.FullPath()}
  {
  }

  lemma InsertShape(bp: Blueprint, d: NodeDef)
    requires TreeShaped(bp.items) && NodesPlaced(bp) && EdgesResolve(bp) && EdgesKeyed(bp)
    requires IsView(bp, d.prefix) && d.owner == bp.id && d.FullPath() !in bp.items
    ensures TreeShaped(bp.items[d.FullPath() := NodeEntry(d)])
    ensures NodesPlaced(bp.(items := bp.items[d.FullPath() := NodeEntry(d)]))
    ensures EdgesResolve(bp.(items := bp.items[d.FullPath() := NodeEntry(d)], down := bp.down[d.FullPath() := []], up := bp.up[d.FullPath() := []]))
  {
    assert Parent(d.FullPath()) == d.prefix;
  }

  /** What can be stored as a node: a definition (of this or another graph),
      a partially applied callable, a name-wrapped item (`node(func, name)`),
      any other callable, or something that is not callable at all. */
  datatype Item =
    | DefItem(def: NodeDef)
    | PartialItem(inner: Item, args: seq<Value>, kwargs: map<string, Value>)
    | NamedItem(inner: Item, name: Option<string>)
    | FuncItem(func: Func)
    | Unstorable

  /** The name a callable is stored under: the explicit one, else the one
      derived from the callable.  Lambdas and callables without a derivable
      name cannot be stored unnamed. */
  function DeriveName(f: Func, name: Option<string>): (r: Result<string>)
    ensures name.Some? ==> r == Ok(name.value)
    ensures name.None? && f.declared.Nameless? ==> r == Err(NamingError)
    ensures name.None? && f.declared == FunctionName("<lambda>") ==> r == Err(NamingError)
    ensures name.None? && f.declared.MethodName? ==> r == Ok(f.declared.name)
    ensures name.None? && f.declared.FunctionName? && f.declared.name != "<lambda>" ==> r == Ok(f.declared.name)
  {
    if name.Some? then Ok(name.value)
    else
      match f.declared
      case MethodName(n) => Ok(n)
      case FunctionName(n) => if n == "<lambda>" then Err(NamingError) else Ok(n)
      case Nameless => Err(NamingError)
  }

  /** Every item and every edge list already present survives unchanged in
      place and kind (node definitions may have been overridden in place), and
      every new edge list is empty. */
  ghost predicate Extends(bp: Blueprint, bp': Blueprint)
  {
    && bp'.id == bp.id
    && (forall p | p in bp.items :: p in bp'.items && (bp.items[p].NodeEntry? <==> bp'.items[p].NodeEntry?))
    && (forall k | k in bp.down :: k in bp'.down && bp'.down[k] == bp.down[k])
    && (forall k | k in bp.up :: k in bp'.up && bp'.up[k] == bp.up[k])
    && (forall k | k in bp'.down && k !in bp.down :: bp'.down[k] == [])
    && (forall k | k in bp'.up && k !in bp.up :: bp'.up[k] == [])
  }

  /** Whether the item is (a wrapper around) a definition already owned by root `id`,
      which storing leaves in place and merely resolves to its path. */
  predicate Owned(item: Item, id: nat)
  {
    match item
    case DefItem(d) => d.owner == id
    case PartialItem(inner, _, _) => Owned(inner, id)
    case NamedItem(inner, _) => Owned(inner, id)
    case FuncItem(_) => false
    case Unstorable => false
  }

  lemma ExtendsTransitive(a: Blueprint, b: Blueprint, c: Blueprint)
    requires Extends(a, b) && Extends(b, c)
    ensures Extends(a, c)
  {
  }

  /**
   Storing an item as a node through the graph object at `prefix`, with an
   optional explicit name and optional default arguments (the latter only
   arrive from unwrapping a partial application).
   */
  function StoreNode(bp: Blueprint, prefix: Path, item: Item, name: Option<string>,
                     args: Option<seq<Value>>, kwargs: Option<map<string, Value>>): (r: Result<(Blueprint, Path)>)
    requires IsView(bp, prefix)
    ensures item.Unstorable? ==> r == Err(Unsupported)
    ensures item.PartialItem? && (args.Some? || kwargs.Some?) ==> r == Err(Unsupported)
    ensures item.FuncItem? && name.None? && item.func.declared == FunctionName("<lambda>") ==> r == Err(NamingError)
    ensures item.FuncItem? && name.None? && item.func.declared.Nameless? ==> r == Err(NamingError)
    ensures item.DefItem? && item.def.owner == bp.id ==> r == Ok((bp, item.def.FullPath()))
    ensures item.DefItem? && item.def.owner != bp.id ==>
              && (r.Ok? <==> !IsGroup(bp, prefix + [item.def.name]))
              && (r.Ok? ==> r.value.1 == prefix + [item.def.name] && IsNode(r.value.0, r.value.1))
              && (r.Ok? && !IsNode(bp, prefix + [item.def.name]) ==>
                    r.value.0.items[prefix + [item.def.name]] == NodeEntry(item.def.Rebase(bp.id, prefix)))
    ensures item.FuncItem? && name.Some? ==>
              && (r.Ok? <==> !IsGroup(bp, prefix + [name.value]))
              && (r.Ok? ==> r.value.1 == prefix + [name.value] && IsNode(r.value.0, r.value.1)
                            && r.value.0.items[r.value.1].def.func == item.func)
              && (r.Ok? && !IsNode(bp, prefix + [name.value]) ==>
                    r.value.0.items[r.value.1] == NodeEntry(MakeNodeDef(bp.id, item.func, prefix, name.value, args, kwargs)))
    ensures r.Ok? ==> r.value.0.id == bp.id && IsView(r.value.0, prefix)
    ensures r.Ok? ==> forall p | p in bp.items :: p in r.value.0.items && (bp.items[p].NodeEntry? <==> r.value.0.items[p].NodeEntry?)
    ensures r.Ok? && Owned(item, bp.id) ==> r.value.0 == bp
    ensures r.Ok? && !Owned(item, bp.id) ==> IsNode(r.value.0, r.value.1) && Under(prefix, r.value.1)
    decreases item
  {
    match item
    case DefItem(d) =>
      if d.owner == bp.id then Ok((bp, d.FullPath()))
      else StoreNodeDef(bp, d.Rebase(bp.id, prefix))
    case PartialItem(inner, a, kw) =>
      if args.Some? || kwargs.Some? then Err(Unsupported)
      else StoreNode(bp, prefix, inner, name, Some(a), Some(kw))
    case NamedItem(inner, n) =>
      StoreNode(bp, prefix, inner, n, None, None)
    case FuncItem(f) =>
      (match DeriveName(f, name)
       case Err(e) => Err(e)
       case Ok(n) => StoreNodeDef(bp, MakeNodeDef(bp.id, f, prefix, n, args, kwargs)))
    case Unstorable => Err(Unsupported)
  }

  /** The path storing `item` through the graph object at `prefix` of root
      `id` resolves to: an own definition stays where it is; anything else
      lands directly under the prefix, under the definition's name or the
      explicit or derived name.  (For an item that cannot be stored the
      path is immaterial.) */
  function ItemPath(id: nat, prefix: Path, item: Item, name: Option<string>): Path
    decreases item
  {
    match item
    case DefItem(d) => if d.owner == id then d.FullPath() else prefix + [d.name]
    case PartialItem(inner, _, _) => ItemPath(id, prefix, inner, name)
    case NamedItem(inner, n) => ItemPath(id, prefix, inner, n)
    case FuncItem(f) => prefix + [if DeriveName(f, name).Ok? then DeriveName(f, name).value else ""]
    case Unstorable => prefix
  }

  /** Where a successful store puts an item depends only on the root, the
      prefix, the item and the name, never on what the graph already holds:
      storing the same item twice resolves to the same node. */
  lemma {:induction false} StorePath(bp: Blueprint, prefix: Path, item: Item, name: Option<string>,
                                     args: Option<seq<Value>>, kwargs: Option<map<string, Value>>)
    requires IsView(bp, prefix) && StoreNode(bp, prefix, item, name, args, kwargs).Ok?
    ensures StoreNode(bp, prefix, item, name, args, kwargs).value.1 == ItemPath(bp.id, prefix, item, name)
    decreases item
  {
    match item
    case DefItem(_) =>
    case PartialItem(inner, a, kw) =>
      StorePath(bp, prefix, inner, name, Some(a), Some(kw));
    case NamedItem(inner, n) =>
      StorePath(bp, prefix, inner, n, None, None);
    case FuncItem(_) =>
    case Unstorable =>
  }

  /** Looking a stored definition up by its name under its prefix finds a node
      holding the definition's callable and arguments. */
  lemma LookupStored(bp: Blueprint, d: NodeDef)
    requires IsView(bp, d.prefix) && StoreNodeDef(bp, d).Ok?
    ensures var e := Lookup(StoreNodeDef(bp, d).value.0, d.prefix, d.name);
      && e.Ok? && e.value.NodeEntry?
      && e.value.def.func == d.func && e.value.def.args == d.args && e.value.def.kwargs == d.kwargs
  {
  }

  lemma {:induction false} StoreNodeWf(bp: Blueprint, prefix: Path, item: Item, name: Option<string>,
                                       args: Option<seq<Value>>, kwargs: Option<map<string, Value>>)
    requires Wf(bp) && IsView(bp, prefix)
    ensures StoredWf(bp, StoreNode(bp, prefix, item, name, args, kwargs))
    decreases item
  {
    match item
    case DefItem(d) =>
      StoreDefItemWf(bp, prefix, d, name, args, kwargs);
    case PartialItem(inner, a, kw) =>
      if args.None? && kwargs.None? {
        StoreNodeWf(bp, prefix, inner, name, Some(a), Some(kw));
      }
    case NamedItem(inner, n) =>
      StoreNodeWf(bp, prefix, inner, n, None, None);
    case FuncItem(f) =>
      StoreFuncItemWf(bp, prefix, f, name, args, kwargs);
    case Unstorable =>
  }

  /** `StoreNodeWf` for a definition. */
  lemma StoreDefItemWf(bp: Blueprint, prefix: Path, d: NodeDef, name: Option<string>,
                       args: Option<seq<Value>>, kwargs: Option<map<string, Value>>)
    requires Wf(bp) && IsView(bp, prefix)
    ensures StoredWf(bp, StoreNode(bp, prefix, DefItem(d), name, args, kwargs))
  {
    if d.owner != bp.id {
      StoreNodeDefWf(bp, d.Rebase(bp.id, prefix));
    }
  }

  /** `StoreNodeWf` for a plain callable. */
  lemma StoreFuncItemWf(bp: Blueprint, prefix: Path, f: Func, name: Option<string>,
                        args: Option<seq<Value>>, kwargs: Option<map<string, Value>>)
    requires Wf(bp) && IsView(bp, prefix)
    ensures StoredWf(bp, StoreNode(bp, prefix, FuncItem(f), name, args, kwargs))
  {
    if DeriveName(f, name).Ok? {
      StoreNodeDefWf(bp, MakeNodeDef(bp.id, f, prefix, DeriveName(f, name).value, args, kwargs));
    }
  }
}
