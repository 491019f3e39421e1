/**
 Values shared by the blueprint and the runtime halves of the pipeline engine:
 paths, edges, parameter bundles, declared callables and node definitions
 (pypeline/common.py and the `params`/`group` constructors of pypeline/context.py).
 */
module Common {

  /** A path names a node or a sub-graph: the chain of names from the root. */
  type Path = seq<string>

  datatype Option<+T> = None | Some(value: T)

  /** The kinds of failure the engine raises (Python raises `ValueError`,
      `KeyError`, `AttributeError` or `TypeError` for them). */
  datatype Error =
    | NamingError          // no name was given and none can be derived
    | StructureConflict    // a node name reused for a sub-graph or vice versa
    | SelfReference        // a graph merged into itself
    | Unsupported          // a construction shape the engine refuses
    | ArityError           // pipelining fewer than two items
    | ParamSpecError       // a specific parameter entry of the wrong shape
    | NotFound             // a missing name or path
    | MissingAttribute     // an attribute lookup on an object that lacks it
    | BadCall              // a call whose arguments do not fit the callee

  datatype Result<+T> = Ok(value: T) | Err(error: Error)

  /** Values flowing through a running graph.  `Params` is the `params(...)`
      bundle, `Dict` is a plain keyword mapping such as `group(...)` builds,
      kept as its entries in iteration order, `NoneV` is Python's `None`; the
      rest stand for user data. */
  datatype Value =
    | Params(args: seq<Value>, kwargs: map<string, Value>)
    | Dict(entries: seq<(string, Value)>)
    | Int(i: int)
    | Str(s: string)
    | Tuple(items: seq<Value>)
    | NoneV

  /** `params(*args, **kwargs)` */
  function MakeParams(args: seq<Value>, kwargs: map<string, Value>): (r: Value)
    ensures r.Params? && r.args == args && r.kwargs == kwargs
  {
    Params(args, kwargs)
  }

  /** `group(**kwargs)` is the keyword mapping itself. */
  function MakeGroup(kwargs: seq<(string, Value)>): (r: Value)
    ensures r.Dict? && r.entries == kwargs
  {
    Dict(kwargs)
  }

  /** The declared signature of a callable: its positional parameter names
      (a bound method's receiver excluded), the name of its `*args` collector
      and the name of its `**kwargs` collector, if any. */
  datatype Signature = Signature(params: seq<string>, varargs: Option<string>, keywords: Option<string>)

  /** How Python derives a callable's name: a bound method through its
      underlying function, a plain function (or lambda, whose name is
      "<lambda>") through its own name; other callables have none. */
  datatype DeclaredName = MethodName(name: string) | FunctionName(name: string) | Nameless

  /** A user callable, kept opaque: an identity, how its name is derived and
      its declared signature. */
  datatype Func = Func(id: nat, declared: DeclaredName, sig: Signature)

  /** A stored edge end: the path of the node at the other end and, for an edge
      that feeds a named parameter, that parameter's name. */
  datatype Edge = Edge(node: Path, param: Option<string>)

  /** A node definition: the owning root graph, the callable, where it lives and
      its default positional and keyword arguments. */
  datatype NodeDef = NodeDef(owner: nat, func: Func, prefix: Path, name: string,
                             args: seq<Value>, kwargs: map<string, Value>)
  {
    /** The node's path: its prefix with its own name appended. */
    function FullPath(): (p: Path)
      ensures |p| == |prefix| + 1 && p[..|prefix|] == prefix && p[|prefix|] == name
    {
      prefix + [name]
    }

    /** A copy of this definition owned by another root and placed under another prefix. */
    function Rebase(newOwner: nat, newPrefix: Path): (r: NodeDef)
      ensures r.owner == newOwner && r.prefix == newPrefix
      ensures r.FullPath() == newPrefix + [name]
      ensures r.func == func && r.name == name && r.args == args && r.kwargs == kwargs
    {
      NodeDef(newOwner, func, newPrefix, name, args, kwargs)
    }

    /** Takes over the callable and the arguments of `other`; keeps identity and place. */
    function Update(other: NodeDef): (r: NodeDef)
      ensures r.owner == owner && r.prefix == prefix && r.name == name
      ensures r.FullPath() == FullPath()
      ensures r.func == other.func && r.args == other.args && r.kwargs == other.kwargs
    {
      this.(func := other.func, args := other.args, kwargs := other.kwargs)
    }

    /** `__getattr__` on a definition, which Python consults only for names
        that are not real attributes: an edge descriptor that targets the
        parameter `key` of this node.  Nothing is stored. */
    function Attr(key: string): (r: ParamRef)
      requires !RealAttribute(key)
      ensures r.def == this && r.param == key
    {
      ParamRef(this, key)
    }
  }

  /** The attributes a node definition really has: the fields its
      constructor sets and its two methods. */
  predicate RealAttribute(key: string)
  {
    key in {"owner", "func", "name", "prefix", "path", "args", "kwargs", "rebase", "update"}
  }

  /** `EdgeDef(node, param)` as produced by attribute access on a node
      definition: usable only as an argument to pipelining. */
  datatype ParamRef = ParamRef(def: NodeDef, param: string)

  /** The `NodeDef` constructor: absent (or empty) arguments default to the
      empty tuple and the empty mapping. */
  function MakeNodeDef(owner: nat, func: Func, prefix: Path, name: string,
                       args: Option<seq<Value>>, kwargs: Option<map<string, Value>>): (r: NodeDef)
    ensures r.owner == owner && r.func == func && r.prefix == prefix && r.name == name
    ensures r.FullPath() == prefix + [name]
    ensures args.None? ==> r.args == []
    ensures args.Some? ==> r.args == args.value
    ensures kwargs.None? ==> r.kwargs == map[]
    ensures kwargs.Some? ==> r.kwargs == kwargs.value
  {
    NodeDef(owner, func, prefix, name,
            if args.Some? then args.value else [],
            if kwargs.Some? then kwargs.value else map[])
  }

  /** Rebasing a definition and then updating it from the original changes nothing:
      the update brings back exactly the callable and arguments the rebase kept. */
  lemma RebaseThenUpdate(d: NodeDef, owner: nat, prefix: Path)
    ensures d.Rebase(owner, prefix).Update(d) == d.Rebase(owner, prefix)
  {
  }

  /** Updating twice from the same definition is the same as updating once. */
  lemma UpdateIdempotent(d: NodeDef, other: NodeDef)
    ensures d.Update(other).Update(other) == d.Update(other)
  {
  }

  /** Whether path `p` lies at or below `prefix`. */
  predicate Under(prefix: Path, p: Path)
  {
    |prefix| <= |p| && p[..|prefix|] == prefix
  }

  /** Rebasing a path is injective, and the original is recovered by dropping the prefix. */
  lemma RebasedPath(prefix: Path, q: Path)
    ensures Under(prefix, prefix + q)
    ensures (prefix + q)[|prefix|..] == q
  {
  }
}
