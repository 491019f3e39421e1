/**
 Building graphs from parts (pypeline/graph.py): `_store` decides between
 merging a root graph, refusing a sub-graph object and storing a node;
 `union` and the `Graph(*items, **named_items)` constructor store a sequence
 of such arguments one after the other.
 */
module Compose {
  import opened Common
  import opened Blueprints
  import opened Merge

  /** What `_store` can be handed: a root graph, a sub-graph object, or anything
      else, which is treated as a node item. */
  datatype StoreArg = GraphArg(src: Blueprint) | SubGraphArg | NodeArg(item: Item)

  /** Root graphs handed in were themselves built through the public operations. */
  ghost predicate Storable(arg: StoreArg)
  {
    arg.GraphArg? ==> Wf(arg.src)
  }

  /** Nothing already in the graph is removed or changes kind, the identity is
      kept, and every edge list only grows at its end. */
  ghost predicate Grows(bp: Blueprint, bp': Blueprint)
  {
    && bp'.id == bp.id
    && (forall p | p in bp.items :: p in bp'.items && (bp.items[p].NodeEntry? <==> bp'.items[p].NodeEntry?))
    && (forall k | k in bp.down :: k in bp'.down && |bp.down[k]| <= |bp'.down[k]| && bp'.down[k][..|bp.down[k]|] == bp.down[k])
    && (forall k | k in bp.up :: k in bp'.up && |bp.up[k]| <= |bp'.up[k]| && bp'.up[k][..|bp.up[k]|] == bp.up[k])
  }

  lemma GrowsTransitive(a: Blueprint, b: Blueprint, c: Blueprint)
    requires Grows(a, b) && Grows(b, c)
    ensures Grows(a, c)
  {
    forall k | k in a.down
      ensures c.down[k][..|a.down[k]|] == a.down[k]
    {
      assert c.down[k][..|b.down[k]|][..|a.down[k]|] == c.down[k][..|a.down[k]|];
    }
    forall k | k in a.up
      ensures c.up[k][..|a.up[k]|] == a.up[k]
    {
      assert c.up[k][..|b.up[k]|][..|a.up[k]|] == c.up[k][..|a.up[k]|];
    }
  }

  /** `_store(item, name)` through the graph object at `prefix`: sub-graph
      objects are refused, root graphs are merged, anything else is stored as a node. */
  function Store(bp: Blueprint, prefix: Path, arg: StoreArg, name: Option<string>): (r: Result<Blueprint>)
    requires IsView(bp, prefix) && Storable(arg)
    ensures arg.SubGraphArg? ==> r == Err(Unsupported)
    ensures arg.GraphArg? ==> r == MergeInto(bp, prefix, arg.src, name)
    ensures arg.NodeArg? ==>
              && (r.Ok? <==> StoreNode(bp, prefix, arg.item, name, None, None).Ok?)
              && (r.Ok? ==> r.value == StoreNode(bp, prefix, arg.item, name, None, None).value.0)
    ensures r.Ok? ==> r.value.id == bp.id && IsView(r.value, prefix)
  {
    match arg
    case SubGraphArg => Err(Unsupported)
    case GraphArg(src) =>
      var r := MergeInto(bp, prefix, src, name);
      if r.Ok? then MergeKeeps(bp, prefix, src, name); r else r
    case NodeArg(item) =>
      match StoreNode(bp, prefix, item, name, None, None)
      case Err(e) => Err(e)
      case Ok((bp', _)) => Ok(bp')
  }

  /** `_store` keeps a graph well formed, and only grows it. */
  lemma StoreWf(bp: Blueprint, prefix: Path, arg: StoreArg, name: Option<string>)
    requires Wf(bp) && IsView(bp, prefix) && Storable(arg)
    ensures Store(bp, prefix, arg, name).Ok? ==>
              Wf(Store(bp, prefix, arg, name).value) && Grows(bp, Store(bp, prefix, arg, name).value)
  {
    match arg
    case SubGraphArg =>
    case GraphArg(src) =>
      if MergeInto(bp, prefix, src, name).Ok? {
        MergeIntoWf(bp, prefix, src, name);
        MergeKeeps(bp, prefix, src, name);
        MergeAppends(bp, prefix, src, name);
      }
    case NodeArg(item) =>
      StoreNodeWf(bp, prefix, item, name, None, None);
  }

  /** Stores the arguments in order, stopping at the first failure. */
  function StoreAll(bp: Blueprint, prefix: Path, args: seq<(Option<string>, StoreArg)>): (r: Result<Blueprint>)
    requires IsView(bp, prefix)
    requires forall i | 0 <= i < |args| :: Storable(args[i].1)
    ensures args == [] ==> r == Ok(bp)
    ensures r.Ok? ==> r.value.id == bp.id && IsView(r.value, prefix)
    ensures (exists i | 0 <= i < |args| :: args[i].1.SubGraphArg?) ==> r.Err?
    decreases |args|
  {
    if args == [] then Ok(bp)
    else
      match Store(bp, prefix, args[0].1, args[0].0)
      case Err(e) => Err(e)
      case Ok(bp') => StoreAll(bp', prefix, args[1..])
  }

  /** Storing a sequence of arguments keeps a graph well formed, and only grows it. */
  lemma {:induction false} StoreAllWf(bp: Blueprint, prefix: Path, args: seq<(Option<string>, StoreArg)>)
    requires Wf(bp) && IsView(bp, prefix)
    requires forall i | 0 <= i < |args| :: Storable(args[i].1)
    ensures StoreAll(bp, prefix, args).Ok? ==>
              Wf(StoreAll(bp, prefix, args).value) && Grows(bp, StoreAll(bp, prefix, args).value)
    decreases |args|
  {
    if args != [] && Store(bp, prefix, args[0].1, args[0].0).Ok? {
      var bp' := Store(bp, prefix, args[0].1, args[0].0).value;
      StoreWf(bp, prefix, args[0].1, args[0].0);
      StoreAllWf(bp', prefix, args[1..]);
      if StoreAll(bp', prefix, args[1..]).Ok? {
        GrowsTransitive(bp, bp', StoreAll(bp', prefix, args[1..]).value);
      }
    }
  }

  /** The positional arguments, unnamed, followed by the named ones. */
  function Arguments(items: seq<StoreArg>, named: seq<(string, StoreArg)>): (r: seq<(Option<string>, StoreArg)>)
    ensures |r| == |items| + |named|
    ensures forall i | 0 <= i < |items| :: r[i] == (None, items[i])
    ensures forall j | 0 <= j < |named| :: r[|items| + j] == (Some(named[j].0), named[j].1)
  {
    seq(|items|, i requires 0 <= i < |items| => (None, items[i]))
      + seq(|named|, j requires 0 <= j < |named| => (Some(named[j].0), named[j].1))
  }

  /** `union(*graphs, **named_graphs)` through the graph object at `prefix`:
      the positional arguments first, then the named ones (Python's keyword
      order is the order given here). */
  function Union(bp: Blueprint, prefix: Path, graphs: seq<StoreArg>, named: seq<(string, StoreArg)>): (r: Result<Blueprint>)
    requires IsView(bp, prefix)
    requires forall i | 0 <= i < |graphs| :: Storable(graphs[i])
    requires forall j | 0 <= j < |named| :: Storable(named[j].1)
    ensures graphs == [] && named == [] ==> r == Ok(bp)
    ensures r.Ok? ==> r.value.id == bp.id && IsView(r.value, prefix)
    ensures (exists i | 0 <= i < |graphs| :: graphs[i].SubGraphArg?) ==> r.Err?
    ensures (exists j | 0 <= j < |named| :: named[j].1.SubGraphArg?) ==> r.Err?
  {
    var args := Arguments(graphs, named);
    assert (exists j | 0 <= j < |named| :: named[j].1.SubGraphArg?) ==> exists i | 0 <= i < |args| :: args[i].1.SubGraphArg? by {
      if j :| 0 <= j < |named| && named[j].1.SubGraphArg? {
        assert args[|graphs| + j].1.SubGraphArg?;
      }
    }
    StoreAll(bp, prefix, args)
  }

  /** `union` keeps a graph well formed, and only grows it. */
  lemma UnionWf(bp: Blueprint, prefix: Path, graphs: seq<StoreArg>, named: seq<(string, StoreArg)>)
    requires Wf(bp) && IsView(bp, prefix)
    requires forall i | 0 <= i < |graphs| :: Storable(graphs[i])
    requires forall j | 0 <= j < |named| :: Storable(named[j].1)
    ensures Union(bp, prefix, graphs, named).Ok? ==>
              Wf(Union(bp, prefix, graphs, named).value) && Grows(bp, Union(bp, prefix, graphs, named).value)
  {
    StoreAllWf(bp, prefix, Arguments(graphs, named));
  }

  /** An argument handed to a graph that is being created: no root graph
      handed in is that graph, and no definition handed in belongs to it. */
  predicate Fresh(id: nat, arg: StoreArg)
  {
    match arg
    case GraphArg(src) => src.id != id
    case NodeArg(item) => !Owned(item, id)
    case SubGraphArg => true
  }

  /** The graph holds what storing `arg` under `name` through the graph object
      at `prefix` puts there: the item's node, or every node of a merged root
      graph below the merge target. */
  ghost predicate Holds(bp: Blueprint, prefix: Path, name: Option<string>, arg: StoreArg)
  {
    match arg
    case NodeArg(item) => IsNode(bp, ItemPath(bp.id, prefix, item, name))
    case GraphArg(src) => forall q | IsNode(src, q) :: IsNode(bp, Target(prefix, name) + q)
    case SubGraphArg => true
  }

  /** A successful store of an argument not owned by the graph leaves it in the graph. */
  lemma StoreHolds(bp: Blueprint, prefix: Path, arg: StoreArg, name: Option<string>)
    requires IsView(bp, prefix) && Storable(arg) && Fresh(bp.id, arg) && Store(bp, prefix, arg, name).Ok?
    ensures Holds(Store(bp, prefix, arg, name).value, prefix, name, arg)
  {
    match arg
    case GraphArg(src) =>
      MergeLands(bp, prefix, src, name);
    case NodeArg(item) =>
      StorePath(bp, prefix, item, name, None, None);
    case SubGraphArg =>
  }

  /** What a graph holds it keeps while it grows. */
  lemma HoldsGrows(bp: Blueprint, bp': Blueprint, prefix: Path, name: Option<string>, arg: StoreArg)
    requires Holds(bp, prefix, name, arg) && Grows(bp, bp')
    ensures Holds(bp', prefix, name, arg)
  {
  }

  /** After a sequence of stores the graph holds every argument. */
  lemma {:induction false} StoreAllHolds(bp: Blueprint, prefix: Path, args: seq<(Option<string>, StoreArg)>)
    requires Wf(bp) && IsView(bp, prefix)
    requires forall i | 0 <= i < |args| :: Storable(args[i].1) && Fresh(bp.id, args[i].1)
    ensures StoreAll(bp, prefix, args).Ok? ==>
              forall i | 0 <= i < |args| :: Holds(StoreAll(bp, prefix, args).value, prefix, args[i].0, args[i].1)
    decreases |args|
  {
    if args != [] && StoreAll(bp, prefix, args).Ok? {
      StoreAllStep(bp, prefix, args);
      var bp' := Store(bp, prefix, args[0].1, args[0].0).value;
      var r := StoreAll(bp', prefix, args[1..]).value;
      StoreHolds(bp, prefix, args[0].1, args[0].0);
      StoreWf(bp, prefix, args[0].1, args[0].0);
      StoreAllWf(bp', prefix, args[1..]);
      StoreAllHolds(bp', prefix, args[1..]);
      HoldsGrows(bp', r, prefix, args[0].0, args[0].1);
      HoldsCons(r, prefix, args);
    }
  }

  /** Storing a non-empty sequence stores its head, then the rest. */
  lemma StoreAllStep(bp: Blueprint, prefix: Path, args: seq<(Option<string>, StoreArg)>)
    requires IsView(bp, prefix) && args != []
    requires forall i | 0 <= i < |args| :: Storable(args[i].1)
    requires StoreAll(bp, prefix, args).Ok?
    ensures Store(bp, prefix, args[0].1, args[0].0).Ok?
    ensures forall i | 0 <= i < |args[1..]| :: Storable(args[1..][i].1) && args[1..][i] == args[i + 1]
    ensures StoreAll(bp, prefix, args) == StoreAll(Store(bp, prefix, args[0].1, args[0].0).value, prefix, args[1..])
  {
  }

  lemma HoldsCons(r: Blueprint, prefix: Path, args: seq<(Option<string>, StoreArg)>)
    requires args != [] && Holds(r, prefix, args[0].0, args[0].1)
    requires forall i | 0 <= i < |args[1..]| :: Holds(r, prefix, args[1..][i].0, args[1..][i].1)
    ensures forall i | 0 <= i < |args| :: Holds(r, prefix, args[i].0, args[i].1)
  {
    forall i | 1 <= i < |args|
      ensures Holds(r, prefix, args[i].0, args[i].1)
    {
      assert args[1..][i - 1] == args[i];
    }
  }

  /** `Graph(*items, **named_items)`: an empty root with identity `id`, into
      which the items are stored in order.  The root is new, so nothing handed
      in is the root itself or one of its definitions. */
  function NewGraph(id: nat, items: seq<StoreArg>, named: seq<(string, StoreArg)>): (r: Result<Blueprint>)
    requires forall i | 0 <= i < |items| :: Storable(items[i]) && Fresh(id, items[i])
    requires forall j | 0 <= j < |named| :: Storable(named[j].1) && Fresh(id, named[j].1)
    ensures items == [] && named == [] ==> r == Ok(EmptyGraph(id))
    ensures r.Ok? ==> r.value.id == id && Wf(r.value)
    ensures r.Ok? ==> forall i | 0 <= i < |items| :: Holds(r.value, [], None, items[i])
    ensures r.Ok? ==> forall j | 0 <= j < |named| :: Holds(r.value, [], Some(named[j].0), named[j].1)
  {
    var args := Arguments(items, named);
    StoreAllWf(EmptyGraph(id), [], args);
    StoreAllHolds(EmptyGraph(id), [], args);
    StoreAll(EmptyGraph(id), [], args)
  }
}
