/**
 Merging one root graph into another (`_store_graph`, `_store`, `union` and the
 `Graph` constructor of pypeline/graph.py).  The source's items are copied
 below a destination prefix, and its edges are rebased under that prefix and
 appended, skipping every rebased edge the destination list already holds.
 */
module Merge {
  import opened Common
  import opened Blueprints

  /** The edges of `es` with `prefix` put in front of every node path. */
  function RebaseEdges(prefix: Path, es: seq<Edge>): (r: seq<Edge>)
    ensures |r| == |es|
    ensures forall i | 0 <= i < |r| :: r[i] == Edge(prefix + es[i].node, es[i].param)
  {
    if es == [] then [] else [Edge(prefix + es[0].node, es[0].param)] + RebaseEdges(prefix, es[1..])
  }

  /** Rebasing relabels edges one to one: an edge below the prefix occurs as
      often as its un-prefixed original did, any other edge not at all. */
  lemma {:induction false} RebaseEdgesCount(prefix: Path, es: seq<Edge>, t: Path, prm: Option<string>)
    ensures multiset(RebaseEdges(prefix, es))[Edge(t, prm)]
         == if Under(prefix, t) then multiset(es)[Edge(t[|prefix|..], prm)] else 0
  {
    if es != [] {
      var r := RebaseEdges(prefix, es);
      RebaseEdgesCount(prefix, es[1..], t, prm);
      HeadMatch(prefix, es[0], t, prm);
      assert r[1..] == RebaseEdges(prefix, es[1..]);
      CountCons(r, Edge(t, prm));
      if Under(prefix, t) {
        CountCons(es, Edge(t[|prefix|..], prm));
      }
    }
  }

  /** How often `e` occurs in a non-empty sequence, from its head and tail. */
  lemma CountCons(s: seq<Edge>, e: Edge)
    requires |s| > 0
    ensures multiset(s)[e] == (if s[0] == e then 1 else 0) + multiset(s[1..])[e]
  {
    assert s == [s[0]] + s[1..];
  }

  /** One rebased edge is `Edge(t, prm)` exactly when `t` lies below the prefix
      and the original edge is `t` without it. */
  lemma HeadMatch(prefix: Path, e: Edge, t: Path, prm: Option<string>)
    ensures (Edge(prefix + e.node, e.param) == Edge(t, prm))
        <==> Under(prefix, t) && e == Edge(t[|prefix|..], prm)
  {
    RebasedPath(prefix, e.node);
    if Under(prefix, t) {
      assert t == prefix + t[|prefix|..];
    }
  }

  /** The candidates not already listed in `existing`, in their order.
      Repeats among the candidates themselves are all kept. */
  function Unseen(existing: seq<Edge>, cands: seq<Edge>): (r: seq<Edge>)
    ensures forall e | e in r :: e in cands && e !in existing
    ensures forall e :: multiset(r)[e] == if e in existing then 0 else multiset(cands)[e]
  {
    if cands == [] then []
    else
      assert cands == [cands[0]] + cands[1..];
      (if cands[0] in existing then [] else [cands[0]]) + Unseen(existing, cands[1..])
  }

  /** The destination edge map after `_copy_edges`: every list whose key is the
      prefix plus a source key is extended by the rebased source edges it does
      not hold yet. */
  function MergeEdges(dst: map<Path, seq<Edge>>, src: map<Path, seq<Edge>>, prefix: Path): (r: map<Path, seq<Edge>>)
    ensures r.Keys == dst.Keys
    ensures forall k | k in dst :: |dst[k]| <= |r[k]| && r[k][..|dst[k]|] == dst[k]
    ensures forall k, e | k in dst && e in r[k][|dst[k]|..] :: e !in dst[k]
  {
    map k | k in dst ::
      if Under(prefix, k) && k[|prefix|..] in src
      then dst[k] + Unseen(dst[k], RebaseEdges(prefix, src[k[|prefix|..]]))
      else dst[k]
  }

  /** How often an edge occurs after the merge: as before if it was already
      listed, otherwise as often as its un-prefixed original occurs in the source. */
  lemma MergeEdgesCount(dst: map<Path, seq<Edge>>, src: map<Path, seq<Edge>>, prefix: Path,
                        k: Path, t: Path, prm: Option<string>)
    ensures Occurrences(MergeEdges(dst, src, prefix), k, Edge(t, prm))
         == Occurrences(dst, k, Edge(t, prm))
            + if k in dst && Occurrences(dst, k, Edge(t, prm)) == 0 && Under(prefix, k) && Under(prefix, t)
              then Occurrences(src, k[|prefix|..], Edge(t[|prefix|..], prm)) else 0
  {
    var r := MergeEdges(dst, src, prefix);
    if k in dst && Under(prefix, k) && k[|prefix|..] in src {
      var cands := RebaseEdges(prefix, src[k[|prefix|..]]);
      assert r[k] == dst[k] + Unseen(dst[k], cands);
      RebaseEdgesCount(prefix, src[k[|prefix|..]], t, prm);
      assert multiset(r[k]) == multiset(dst[k]) + multiset(Unseen(dst[k], cands));
    }
  }

  /** What the source item at `q` becomes at the destination below `prefix`:
      a node is rebased under this root, a sub-graph becomes a sub-graph. */
  function Landed(src: Blueprint, q: Path, prefix: Path, owner: nat): Entry
    requires q in src.items && |q| > 0
  {
    match src.items[q]
    case NodeEntry(d) => NodeEntry(d.Rebase(owner, prefix + Parent(q)))
    case GroupEntry => GroupEntry
  }

  /** What the destination holds at `prefix + q` after copying: an existing
      node is overridden in place, an existing sub-graph is reused, and a free
      path receives the landed source item. */
  function Copied(bp: Blueprint, src: Blueprint, prefix: Path, q: Path): Entry
    requires q in src.items && |q| > 0
  {
    var k := prefix + q;
    if k in bp.items then
      if bp.items[k].NodeEntry? && src.items[q].NodeEntry?
      then NodeEntry(bp.items[k].def.Update(src.items[q].def))
      else bp.items[k]
    else Landed(src, q, prefix, bp.id)
  }

  /** Whether the source holds an item directly inside the sub-graph at `q`. */
  predicate HasChildren(src: Blueprint, q: Path)
  {
    exists c | c in src.items :: |c| > 0 && Parent(c) == q
  }

  /** The source item at `q` cannot land at `prefix + q`: a node would override a
      sub-graph, or a sub-graph with contents would have to be copied into a node.
      (An empty source sub-graph over a node copies nothing and passes.) */
  predicate Clash(bp: Blueprint, src: Blueprint, prefix: Path, q: Path)
    requires q in src.items
  {
    && prefix + q in bp.items
    && (|| (src.items[q].NodeEntry? && bp.items[prefix + q].GroupEntry?)
        || (src.items[q].GroupEntry? && bp.items[prefix + q].NodeEntry? && HasChildren(src, q)))
  }

  predicate Conflicts(bp: Blueprint, src: Blueprint, prefix: Path)
  {
    exists q | q in src.items :: Clash(bp, src, prefix, q)
  }

  /** The destination paths that receive a new node (and so new empty edge lists). */
  function FreshNodes(bp: Blueprint, src: Blueprint, prefix: Path): set<Path>
  {
    set q | q in src.items && src.items[q].NodeEntry? && prefix + q !in bp.items :: prefix + q
  }

  /** Every landing path is the prefix plus a non-empty source path. */
  lemma LandingSplits(src: Blueprint, prefix: Path)
    requires forall q | q in src.items :: |q| > 0
    ensures forall k | k in Landing(src, prefix) ::
              Under(prefix, k) && k[|prefix|..] in src.items && |k[|prefix|..]| > 0
  {
    forall k | k in Landing(src, prefix)
      ensures Under(prefix, k) && k[|prefix|..] in src.items
    {
      var q :| q in src.items && k == prefix + q;
      RebasedPath(prefix, q);
    }
  }

  /** `_copy_structure`: every source item lands at the prefix plus its path. */
  function CopyStructure(bp: Blueprint, src: Blueprint, prefix: Path): Blueprint
    requires forall q | q in src.items :: |q| > 0
  {
    LandingSplits(src, prefix);
    var copied := map k | k in Landing(src, prefix) :: Copied(bp, src, prefix, k[|prefix|..]);
    var added := FreshNodes(bp, src, prefix);
    bp.(items := bp.items + copied,
        down := bp.down + map k | k in added :: [],
        up := bp.up + map k | k in added :: [])
  }

  /** The graph object a merge copies into: the one at `prefix` itself, or for a
      named merge its sub-graph `name`. */
  function Target(prefix: Path, name: Option<string>): Path
  {
    if name.Some? then prefix + [name.value] else prefix
  }

  /** Resolves the graph object a merge copies into, creating the named
      sub-graph when missing. */
  function MergeRoot(bp: Blueprint, prefix: Path, name: Option<string>): (r: Result<(Blueprint, Path)>)
    requires IsView(bp, prefix)
    ensures r.Err? <==> name.Some? && IsNode(bp, Target(prefix, name))
    ensures r.Err? ==> r.error == StructureConflict
    ensures r.Ok? ==> r.value.1 == Target(prefix, name) && IsView(r.value.0, r.value.1)
    ensures r.Ok? && name.None? ==> r.value.0 == bp
    ensures r.Ok? && name.Some? ==> r.value.0 == bp.(items := bp.items[Target(prefix, name) := GroupEntry])
  {
    match name
    case None => Ok((bp, prefix))
    case Some(n) =>
      var p := prefix + [n];
      if IsNode(bp, p) then Err(StructureConflict)
      else Ok((bp.(items := bp.items[p := GroupEntry]), p))
  }

  /** `_copy_edges` on both maps. */
  function CopyEdges(c: Blueprint, src: Blueprint, root: Path): Blueprint
  {
    c.(down := MergeEdges(c.down, src.down, root), up := MergeEdges(c.up, src.up, root))
  }

  /**
   `_store_graph`: merges root graph `src` into the graph object at `prefix`,
   flat or under the sub-graph `name`.
   */
  function MergeInto(bp: Blueprint, prefix: Path, src: Blueprint, name: Option<string>): (r: Result<Blueprint>)
    requires Wf(src) && IsView(bp, prefix)
    ensures src.id == bp.id ==> r == Err(SelfReference)
    ensures r.Ok? <==> && src.id != bp.id
                       && !(name.Some? && IsNode(bp, Target(prefix, name)))
                       && !Conflicts(bp, src, Target(prefix, name))
    ensures r.Err? ==> r.error == SelfReference || r.error == StructureConflict
  {
    if src.id == bp.id then Err(SelfReference)
    else
      match MergeRoot(bp, prefix, name)
      case Err(e) => Err(e)
      case Ok(rooted) =>
        var (bp1, root) := rooted;
        RootedConflicts(bp, prefix, src, name);
        if Conflicts(bp1, src, root) then Err(StructureConflict)
        else Ok(CopyEdges(CopyStructure(bp1, src, root), src, root))
  }

  /** Creating the named sub-graph cannot itself clash with the source, whose
      items all lie strictly below the merge root. */
  lemma RootedConflicts(bp: Blueprint, prefix: Path, src: Blueprint, name: Option<string>)
    requires Wf(src) && IsView(bp, prefix) && MergeRoot(bp, prefix, name).Ok?
    ensures Conflicts(MergeRoot(bp, prefix, name).value.0, src, Target(prefix, name))
        <==> Conflicts(bp, src, Target(prefix, name))
  {
    var bp1 := MergeRoot(bp, prefix, name).value.0;
    var root := Target(prefix, name);
    forall q | q in src.items
      ensures Clash(bp1, src, root, q) <==> Clash(bp, src, root, q)
    {
      assert |root + q| > |root|;
    }
  }

  /** The destination paths the source items land at. */
  function Landing(src: Blueprint, prefix: Path): set<Path>
  {
    set q | q in src.items :: prefix + q
  }

  /** The items after `_copy_structure`: each landing path holds what `Copied`
      says, every other item is untouched, and nothing else is added. */
  lemma CopyLookup(bp: Blueprint, src: Blueprint, prefix: Path)
    requires forall q | q in src.items :: |q| > 0
    ensures CopyStructure(bp, src, prefix).id == bp.id
    ensures CopyStructure(bp, src, prefix).items.Keys == bp.items.Keys + Landing(src, prefix)
    ensures forall q | q in src.items :: CopyStructure(bp, src, prefix).items[prefix + q] == Copied(bp, src, prefix, q)
    ensures forall k | k in bp.items && k !in Landing(src, prefix) :: CopyStructure(bp, src, prefix).items[k] == bp.items[k]
  {
    CopyKeys(bp, src, prefix);
    forall q | q in src.items
      ensures CopyStructure(bp, src, prefix).items[prefix + q] == Copied(bp, src, prefix, q)
    {
      CopyAt(bp, src, prefix, q);
    }
  }

  /** The copy's item paths: the old ones and the landing paths. */
  lemma CopyKeys(bp: Blueprint, src: Blueprint, prefix: Path)
    requires forall q | q in src.items :: |q| > 0
    ensures CopyStructure(bp, src, prefix).items.Keys == bp.items.Keys + Landing(src, prefix)
    ensures forall k | k in bp.items && k !in Landing(src, prefix) :: CopyStructure(bp, src, prefix).items[k] == bp.items[k]
  {
  }

  /** The copy's item at one landing path. */
  lemma CopyAt(bp: Blueprint, src: Blueprint, prefix: Path, q: Path)
    requires forall q | q in src.items :: |q| > 0
    requires q in src.items
    ensures CopyStructure(bp, src, prefix).items[prefix + q] == Copied(bp, src, prefix, q)
  {
    RebasedPath(prefix, q);
    assert prefix + q in Landing(src, prefix);
  }

  /** A path is a landing path exactly when it is the prefix plus a source path. */
  lemma LandingMember(src: Blueprint, prefix: Path, k: Path)
    ensures k in Landing(src, prefix) <==> Under(prefix, k) && k[|prefix|..] in src.items
  {
    if Under(prefix, k) {
      assert k == prefix + k[|prefix|..];
    }
    if k in Landing(src, prefix) {
      var q :| q in src.items && k == prefix + q;
      RebasedPath(prefix, q);
    }
  }

  /** Copying never changes the kind of an item the destination already holds. */
  lemma CopyKeepsKinds(bp: Blueprint, src: Blueprint, prefix: Path)
    requires forall q | q in src.items :: |q| > 0
    ensures forall k | k in bp.items :: k in CopyStructure(bp, src, prefix).items
              && (CopyStructure(bp, src, prefix).items[k].NodeEntry? <==> bp.items[k].NodeEntry?)
  {
    var c := CopyStructure(bp, src, prefix);
    CopyLookup(bp, src, prefix);
    forall k | k in bp.items
      ensures c.items[k].NodeEntry? <==> bp.items[k].NodeEntry?
    {
      LandingMember(src, prefix, k);
      if k in Landing(src, prefix) {
        var q := k[|prefix|..];
        assert k == prefix + q;
      }
    }
  }

  /** Without a clash every source node lands as a node and every source
      sub-graph with contents lands as a sub-graph. */
  lemma CopyLandsKinds(bp: Blueprint, src: Blueprint, prefix: Path)
    requires forall q | q in src.items :: |q| > 0
    requires !Conflicts(bp, src, prefix)
    ensures forall q | IsNode(src, q) :: IsNode(CopyStructure(bp, src, prefix), prefix + q)
    ensures forall q | IsGroup(src, q) && HasChildren(src, q) :: IsGroup(CopyStructure(bp, src, prefix), prefix + q)
  {
    forall q | IsNode(src, q)
      ensures IsNode(CopyStructure(bp, src, prefix), prefix + q)
    {
      assert !Clash(bp, src, prefix, q);
      KindAt(bp, src, prefix, q);
    }
    forall q | IsGroup(src, q) && HasChildren(src, q)
      ensures IsGroup(CopyStructure(bp, src, prefix), prefix + q)
    {
      assert !Clash(bp, src, prefix, q);
      KindAt(bp, src, prefix, q);
    }
  }

  /** `CopyLandsKinds` for one source item. */
  lemma KindAt(bp: Blueprint, src: Blueprint, prefix: Path, q: Path)
    requires forall q | q in src.items :: |q| > 0
    requires q in src.items && !Clash(bp, src, prefix, q)
    ensures IsNode(src, q) ==> IsNode(CopyStructure(bp, src, prefix), prefix + q)
    ensures IsGroup(src, q) && HasChildren(src, q) ==> IsGroup(CopyStructure(bp, src, prefix), prefix + q)
  {
    LookupAt(bp, src, prefix, prefix + q);
    RebasedPath(prefix, q);
  }

  /** What the copied items hold at one path. */
  lemma LookupAt(bp: Blueprint, src: Blueprint, prefix: Path, k: Path)
    requires forall q | q in src.items :: |q| > 0
    ensures k in CopyStructure(bp, src, prefix).items <==> k in bp.items || k in Landing(src, prefix)
    ensures k in Landing(src, prefix) <==> Under(prefix, k) && k[|prefix|..] in src.items
    ensures k in Landing(src, prefix) ==>
              k == prefix + k[|prefix|..] && CopyStructure(bp, src, prefix).items[k] == Copied(bp, src, prefix, k[|prefix|..])
    ensures k in bp.items && k !in Landing(src, prefix) ==> CopyStructure(bp, src, prefix).items[k] == bp.items[k]
  {
    CopyLookup(bp, src, prefix);
    LandingMember(src, prefix, k);
  }

  /** The tree condition at one copied path. */
  lemma TreeAt(bp: Blueprint, src: Blueprint, prefix: Path, k: Path)
    requires TreeShaped(bp.items) && TreeShaped(src.items) && IsView(bp, prefix)
    requires !Conflicts(bp, src, prefix)
    requires k in CopyStructure(bp, src, prefix).items
    ensures |k| > 0
    ensures |k| > 1 ==> Parent(k) in CopyStructure(bp, src, prefix).items
                        && CopyStructure(bp, src, prefix).items[Parent(k)].GroupEntry?
  {
    LookupAt(bp, src, prefix, k);
    if |k| > 1 {
      var g := Parent(k);
      LookupAt(bp, src, prefix, g);
      if k in Landing(src, prefix) {
        var q := k[|prefix|..];
        if |q| == 1 {
          assert g == prefix;
          assert prefix !in Landing(src, prefix);
        } else {
          LandedParent(bp, src, prefix, q);
        }
      } else if g in Landing(src, prefix) {
        assert !Clash(bp, src, prefix, g[|prefix|..]);
      }
    }
  }

  /** The parent of a landed path is the prefix itself or the landing path of
      the source parent, which has children and so does not clash. */
  lemma LandedParent(bp: Blueprint, src: Blueprint, prefix: Path, q: Path)
    requires TreeShaped(src.items) && q in src.items && |q| > 1
    requires !Conflicts(bp, src, prefix)
    ensures Parent(prefix + q) == prefix + Parent(q)
    ensures Parent(q) in src.items && src.items[Parent(q)].GroupEntry? && HasChildren(src, Parent(q))
    ensures !Clash(bp, src, prefix, Parent(q))
  {
    assert prefix + q == (prefix + Parent(q)) + [q[|q| - 1]];
    assert HasChildren(src, Parent(q)) by {
      assert q in src.items && |q| > 0 && Parent(q) == Parent(q);
    }
  }

  /** Copying keeps the items a tree. */
  lemma CopyTree(bp: Blueprint, src: Blueprint, prefix: Path)
    requires TreeShaped(bp.items) && TreeShaped(src.items) && IsView(bp, prefix)
    requires !Conflicts(bp, src, prefix)
    ensures TreeShaped(CopyStructure(bp, src, prefix).items)
  {
    var c := CopyStructure(bp, src, prefix);
    forall k | k in c.items
      ensures |k| > 0 && (|k| > 1 ==> Parent(k) in c.items && c.items[Parent(k)].GroupEntry?)
    {
      TreeAt(bp, src, prefix, k);
    }
  }

  /** Ownership and placement at one copied path. */
  lemma PlacedAt(bp: Blueprint, src: Blueprint, prefix: Path, k: Path)
    requires NodesPlaced(bp) && NodesPlaced(src) && TreeShaped(src.items)
    requires IsNode(CopyStructure(bp, src, prefix), k)
    ensures CopyStructure(bp, src, prefix).items[k].def.owner == bp.id
    ensures CopyStructure(bp, src, prefix).items[k].def.FullPath() == k
  {
    LookupAt(bp, src, prefix, k);
    if k in Landing(src, prefix) && k !in bp.items {
      LandedPlaced(src, k[|prefix|..], prefix, bp.id);
    }
  }

  /** A landed source node is owned by the new root and sits at the prefix plus its old path. */
  lemma LandedPlaced(src: Blueprint, q: Path, prefix: Path, owner: nat)
    requires NodesPlaced(src) && q in src.items && |q| > 0
    ensures Landed(src, q, prefix, owner).NodeEntry? ==>
              && Landed(src, q, prefix, owner).def.owner == owner
              && Landed(src, q, prefix, owner).def.FullPath() == prefix + q
  {
    if src.items[q].NodeEntry? {
      var d := src.items[q].def;
      assert q == d.prefix + [d.name];
      assert Parent(q) == d.prefix;
      assert prefix + Parent(q) + [d.name] == prefix + q;
    }
  }

  /** Copying keeps every definition owned by the destination root and at its path. */
  lemma CopyPlaced(bp: Blueprint, src: Blueprint, prefix: Path)
    requires NodesPlaced(bp) && NodesPlaced(src) && TreeShaped(src.items)
    ensures NodesPlaced(CopyStructure(bp, src, prefix))
  {
    var c := CopyStructure(bp, src, prefix);
    CopyLookup(bp, src, prefix);
    forall k | k in c.items && c.items[k].NodeEntry?
      ensures c.items[k].def.owner == c.id && c.items[k].def.FullPath() == k
    {
      PlacedAt(bp, src, prefix, k);
    }
  }

  /** The nodes after copying: the old ones and the newly landed ones. */
  lemma CopyNodes(bp: Blueprint, src: Blueprint, prefix: Path)
    requires TreeShaped(src.items)
    ensures NodePaths(CopyStructure(bp, src, prefix)) == NodePaths(bp) + FreshNodes(bp, src, prefix)
  {
    var c := CopyStructure(bp, src, prefix);
    forall k | k in NodePaths(c)
      ensures k in NodePaths(bp) + FreshNodes(bp, src, prefix)
    {
      NodeAt(bp, src, prefix, k);
    }
    forall k | k in NodePaths(bp) + FreshNodes(bp, src, prefix)
      ensures k in NodePaths(c)
    {
      if k in FreshNodes(bp, src, prefix) {
        var q :| q in src.items && src.items[q].NodeEntry? && prefix + q !in bp.items && k == prefix + q;
        RebasedPath(prefix, q);
      }
      NodeAt(bp, src, prefix, k);
    }
  }

  /** `CopyNodes` at one path. */
  lemma NodeAt(bp: Blueprint, src: Blueprint, prefix: Path, k: Path)
    requires TreeShaped(src.items)
    ensures IsNode(CopyStructure(bp, src, prefix), k)
        <==> IsNode(bp, k)
             || (k !in bp.items && Under(prefix, k) && IsNode(src, k[|prefix|..]))
    ensures k !in bp.items && Under(prefix, k) && IsNode(src, k[|prefix|..]) ==> k in FreshNodes(bp, src, prefix)
  {
    LookupAt(bp, src, prefix, k);
  }

  /** Adding empty edge lists under fresh keys keeps the maps mirrored. */
  lemma MirroredAddEmpties(down: map<Path, seq<Edge>>, up: map<Path, seq<Edge>>, keys: set<Path>)
    requires Mirrored(down, up) && keys !! down.Keys && keys !! up.Keys
    ensures Mirrored(down + map k | k in keys :: [], up + map k | k in keys :: [])
  {
    var down' := down + map k | k in keys :: [];
    var up' := up + map k | k in keys :: [];
    forall s: Path, t: Path, prm: Option<string>
      ensures Occurrences(down', s, Edge(t, prm)) == Occurrences(up', t, Edge(s, prm))
    {
      assert Occurrences(down', s, Edge(t, prm)) == Occurrences(down, s, Edge(t, prm));
      assert Occurrences(up', t, Edge(s, prm)) == Occurrences(up, t, Edge(s, prm));
    }
  }

  /** `_copy_structure` keeps a graph well formed when nothing clashes. */
  lemma CopyWf(bp: Blueprint, src: Blueprint, prefix: Path)
    requires Wf(bp) && Wf(src) && IsView(bp, prefix) && !Conflicts(bp, src, prefix)
    ensures Wf(CopyStructure(bp, src, prefix))
  {
    CopyTree(bp, src, prefix);
    CopyPlaced(bp, src, prefix);
    CopyKeyed(bp, src, prefix);
    CopyResolves(bp, src, prefix);
    CopyMirrored(bp, src, prefix);
  }

  /** The copy holds edge lists for exactly its nodes. */
  lemma CopyKeyed(bp: Blueprint, src: Blueprint, prefix: Path)
    requires EdgesKeyed(bp) && TreeShaped(src.items)
    ensures EdgesKeyed(CopyStructure(bp, src, prefix))
  {
    CopyNodes(bp, src, prefix);
  }

  /** The copy's edge maps stay mirror images. */
  lemma CopyMirrored(bp: Blueprint, src: Blueprint, prefix: Path)
    requires EdgesKeyed(bp) && Mirrored(bp.down, bp.up) && TreeShaped(src.items)
    ensures var c := CopyStructure(bp, src, prefix); Mirrored(c.down, c.up)
  {
    var added := FreshNodes(bp, src, prefix);
    assert added !! bp.down.Keys && added !! bp.up.Keys;
    MirroredAddEmpties(bp.down, bp.up, added);
  }

  /** The edges the copy keeps still lead to nodes. */
  lemma CopyResolves(bp: Blueprint, src: Blueprint, prefix: Path)
    requires EdgesResolve(bp) && EdgesKeyed(bp) && TreeShaped(src.items)
    ensures EdgesResolve(CopyStructure(bp, src, prefix))
  {
    var c := CopyStructure(bp, src, prefix);
    CopyKeepsKinds(bp, src, prefix);
    forall s, e | s in c.down && e in c.down[s]
      ensures IsNode(c, e.node)
    {
      assert s in bp.down;
    }
    forall t, e | t in c.up && e in c.up[t]
      ensures IsNode(c, e.node)
    {
      assert t in bp.up;
    }
  }

  /** Every source node has a node at its landing path. */
  ghost predicate SourceLanded(c: Blueprint, src: Blueprint, root: Path)
  {
    forall q | IsNode(src, q) :: IsNode(c, root + q)
  }

  /** An edge the merge appends points at the landing path of a source node. */
  lemma AppendedResolves(c: Blueprint, src: Blueprint, root: Path, edges: map<Path, seq<Edge>>, s: Path, e: Edge)
    requires EdgesResolve(src) && SourceLanded(c, src, root)
    requires edges == src.down || edges == src.up
    requires Under(root, s) && s[|root|..] in edges
    requires e in RebaseEdges(root, edges[s[|root|..]])
    ensures IsNode(c, e.node)
  {
    var es := edges[s[|root|..]];
    var i :| 0 <= i < |es| && RebaseEdges(root, es)[i] == e;
    assert es[i] in es;
  }

  /** After `_copy_edges` every edge still leads to a node. */
  lemma CopyEdgesResolve(c: Blueprint, src: Blueprint, root: Path)
    requires EdgesResolve(c) && EdgesResolve(src) && SourceLanded(c, src, root)
    ensures EdgesResolve(CopyEdges(c, src, root))
  {
    var r := CopyEdges(c, src, root);
    forall s, e | s in r.down && e in r.down[s]
      ensures IsNode(r, e.node)
    {
      if e !in c.down[s] {
        AppendedResolves(c, src, root, src.down, s, e);
      }
    }
    forall t, e | t in r.up && e in r.up[t]
      ensures IsNode(r, e.node)
    {
      if e !in c.up[t] {
        AppendedResolves(c, src, root, src.up, t, e);
      }
    }
  }

  /** A source edge list that is not empty belongs to a source node, and so
      does every node it lists. */
  lemma SourceEdgeEnds(src: Blueprint, edges: map<Path, seq<Edge>>, a: Path, b: Path, prm: Option<string>)
    requires EdgesKeyed(src) && EdgesResolve(src)
    requires edges == src.down || edges == src.up
    requires Occurrences(edges, a, Edge(b, prm)) > 0
    ensures IsNode(src, a) && IsNode(src, b)
  {
    assert Edge(b, prm) in edges[a];
  }

  /** The mirror condition for one pair of paths after `_copy_edges`. */
  lemma MirrorAt(down: map<Path, seq<Edge>>, up: map<Path, seq<Edge>>,
                 sdown: map<Path, seq<Edge>>, sup: map<Path, seq<Edge>>,
                 root: Path, s: Path, t: Path, prm: Option<string>)
    requires Occurrences(down, s, Edge(t, prm)) == Occurrences(up, t, Edge(s, prm))
    requires Under(root, s) && Under(root, t) ==>
               Occurrences(sdown, s[|root|..], Edge(t[|root|..], prm))
               == Occurrences(sup, t[|root|..], Edge(s[|root|..], prm))
    requires Under(root, s) && Under(root, t) && Occurrences(sdown, s[|root|..], Edge(t[|root|..], prm)) > 0 ==>
               s in down && t in up
    ensures Occurrences(MergeEdges(down, sdown, root), s, Edge(t, prm))
         == Occurrences(MergeEdges(up, sup, root), t, Edge(s, prm))
  {
    MergeEdgesCount(down, sdown, root, s, t, prm);
    MergeEdgesCount(up, sup, root, t, s, prm);
  }

  /** A source edge between `a` and `b` lands between two keyed nodes. */
  lemma LandedKeys(c: Blueprint, src: Blueprint, root: Path, s: Path, t: Path, prm: Option<string>)
    requires EdgesKeyed(c) && EdgesKeyed(src) && EdgesResolve(src) && SourceLanded(c, src, root)
    requires Under(root, s) && Under(root, t)
    requires Occurrences(src.down, s[|root|..], Edge(t[|root|..], prm)) > 0
    ensures s in c.down && t in c.up
  {
    var a, b := s[|root|..], t[|root|..];
    SourceEdgeEnds(src, src.down, a, b, prm);
    assert s == root + a && t == root + b;
    assert IsNode(c, s) && IsNode(c, t);
  }

  /** After `_copy_edges` the two maps are still mirror images. */
  lemma CopyEdgesMirrored(c: Blueprint, src: Blueprint, root: Path)
    requires EdgesKeyed(c) && Mirrored(c.down, c.up)
    requires EdgesKeyed(src) && EdgesResolve(src) && Mirrored(src.down, src.up)
    requires SourceLanded(c, src, root)
    ensures Mirrored(CopyEdges(c, src, root).down, CopyEdges(c, src, root).up)
  {
    var r := CopyEdges(c, src, root);
    forall s: Path, t: Path, prm: Option<string>
      ensures Occurrences(r.down, s, Edge(t, prm)) == Occurrences(r.up, t, Edge(s, prm))
    {
      if Under(root, s) && Under(root, t) && Occurrences(src.down, s[|root|..], Edge(t[|root|..], prm)) > 0 {
        LandedKeys(c, src, root, s, t, prm);
      }
      MirrorAt(c.down, c.up, src.down, src.up, root, s, t, prm);
    }
  }

  /** `_copy_edges` keeps a graph well formed once every source node has landed. */
  lemma CopyEdgesWf(c: Blueprint, src: Blueprint, root: Path)
    requires Wf(c) && Wf(src) && SourceLanded(c, src, root)
    ensures Wf(CopyEdges(c, src, root))
  {
    CopyEdgesResolve(c, src, root);
    CopyEdgesMirrored(c, src, root);
  }

  /** Creating the named sub-graph keeps a graph well formed. */
  lemma MergeRootWf(bp: Blueprint, prefix: Path, name: Option<string>)
    requires Wf(bp) && IsView(bp, prefix) && MergeRoot(bp, prefix, name).Ok?
    ensures Wf(MergeRoot(bp, prefix, name).value.0)
    ensures forall k | k in bp.items :: k in MergeRoot(bp, prefix, name).value.0.items
              && (bp.items[k].NodeEntry? <==> MergeRoot(bp, prefix, name).value.0.items[k].NodeEntry?)
  {
    if name.Some? {
      var p := prefix + [name.value];
      assert Parent(p) == prefix;
      AddGroupWf(bp, p);
    }
  }

  /** Storing a sub-graph at a free path (or over a sub-graph) below a
      sub-graph or the root keeps a graph well formed and every kind as it was. */
  lemma AddGroupWf(bp: Blueprint, p: Path)
    requires Wf(bp) && |p| > 0 && !IsNode(bp, p) && IsView(bp, Parent(p))
    ensures Wf(bp.(items := bp.items[p := GroupEntry]))
    ensures forall k | k in bp.items :: k in bp.items[p := GroupEntry]
              && (bp.items[k].NodeEntry? <==> bp.items[p := GroupEntry][k].NodeEntry?)
  {
    var bp1 := bp.(items := bp.items[p := GroupEntry]);
    AddGroupTree(bp.items, p);
    assert NodePaths(bp1) == NodePaths(bp);
    SameNodesWf(bp, bp1);
  }

  /** Storing a sub-graph below a sub-graph or the root keeps the items a tree. */
  lemma AddGroupTree(items: map<Path, Entry>, p: Path)
    requires TreeShaped(items) && |p| > 0
    requires |p| > 1 ==> Parent(p) in items && items[Parent(p)].GroupEntry?
    requires p in items ==> items[p].GroupEntry?
    ensures TreeShaped(items[p := GroupEntry])
  {
    var items1 := items[p := GroupEntry];
    forall k | k in items1
      ensures |k| > 0 && (|k| > 1 ==> Parent(k) in items1 && items1[Parent(k)].GroupEntry?)
    {
      if k != p && |k| > 1 {
        assert Parent(k) in items && items[Parent(k)].GroupEntry?;
      }
    }
  }

  /** A tree with the same nodes, the same definitions and the same edges is well formed too. */
  lemma SameNodesWf(bp: Blueprint, bp1: Blueprint)
    requires Wf(bp) && TreeShaped(bp1.items)
    requires bp1.id == bp.id && bp1.down == bp.down && bp1.up == bp.up
    requires NodePaths(bp1) == NodePaths(bp)
    requires forall k | k in NodePaths(bp) :: bp1.items[k] == bp.items[k]
    ensures Wf(bp1)
  {
    assert forall k | IsNode(bp1, k) :: k in NodePaths(bp1);
    forall k | IsNode(bp, k)
      ensures IsNode(bp1, k)
    {
      assert k in NodePaths(bp);
      assert k in NodePaths(bp1);
    }
  }

  /** Merging keeps the destination well formed. */
  lemma MergeIntoWf(bp: Blueprint, prefix: Path, src: Blueprint, name: Option<string>)
    requires Wf(bp) && Wf(src) && IsView(bp, prefix) && MergeInto(bp, prefix, src, name).Ok?
    ensures Wf(MergeInto(bp, prefix, src, name).value)
  {
    var (bp1, root) := MergeRoot(bp, prefix, name).value;
    MergeRootWf(bp, prefix, name);
    RootedConflicts(bp, prefix, src, name);
    CopyWf(bp1, src, root);
    CopyLandsKinds(bp1, src, root);
    CopyEdgesWf(CopyStructure(bp1, src, root), src, root);
  }

  /** One source node after copying, against the graph copied into. */
  lemma NodeLandsAt(bp: Blueprint, src: Blueprint, root: Path, q: Path)
    requires TreeShaped(src.items) && IsNode(src, q) && !Clash(bp, src, root, q)
    ensures LandsAsNode(bp, CopyStructure(bp, src, root), src, root, q)
  {
    LookupAt(bp, src, root, root + q);
    RebasedPath(root, q);
  }

  /** One source sub-graph after copying, against the graph copied into. */
  lemma GroupLandsAt(bp: Blueprint, src: Blueprint, root: Path, q: Path)
    requires TreeShaped(src.items) && IsGroup(src, q) && !Clash(bp, src, root, q)
    requires HasChildren(src, q) || root + q !in bp.items || IsGroup(bp, root + q)
    ensures IsGroup(CopyStructure(bp, src, root), root + q)
  {
    LookupAt(bp, src, root, root + q);
    RebasedPath(root, q);
  }

  /** The merge root created for a named merge is not a landing path. */
  lemma RootNotLanding(src: Blueprint, root: Path)
    requires TreeShaped(src.items)
    ensures root !in Landing(src, root)
  {
    if root in Landing(src, root) {
      var q :| q in src.items && root == root + q;
    }
  }

  /** What a merge keeps: identity, the items already there and their kinds;
      the only new paths are the landing paths and the named sub-graph. */
  lemma MergeKeeps(bp: Blueprint, prefix: Path, src: Blueprint, name: Option<string>)
    requires Wf(src) && IsView(bp, prefix) && MergeInto(bp, prefix, src, name).Ok?
    ensures var r := MergeInto(bp, prefix, src, name).value;
      && r.id == bp.id
      && IsView(r, prefix)
      && (name.Some? ==> IsGroup(r, Target(prefix, name)))
      && r.items.Keys == bp.items.Keys + Landing(src, Target(prefix, name)) + (if name.Some? then {Target(prefix, name)} else {})
      && (forall k | k in bp.items :: k in r.items && (bp.items[k].NodeEntry? <==> r.items[k].NodeEntry?))
      && (forall k | k in bp.items && k !in Landing(src, Target(prefix, name)) :: r.items[k] == bp.items[k])
  {
    var (bp1, root) := MergeRoot(bp, prefix, name).value;
    Staged(bp, prefix, src, name);
    RootNotLanding(src, root);
    CopyKeeps(bp1, src, root);
    RootKeeps(bp, prefix, name);
    KeepsComposed(bp, bp1, CopyStructure(bp1, src, root), Landing(src, root), prefix, root, name.Some?);
  }

  /** Composes `RootKeeps` and `CopyKeeps` into `MergeKeeps`. */
  lemma KeepsComposed(bp: Blueprint, bp1: Blueprint, c: Blueprint, land: set<Path>,
                      prefix: Path, root: Path, named: bool)
    requires IsView(bp, prefix)
    requires bp1.id == bp.id
    requires bp1.items.Keys == bp.items.Keys + (if named then {root} else {})
    requires named ==> IsGroup(bp1, root) && root !in land
    requires forall k | k in bp.items :: k in bp1.items && bp1.items[k] == bp.items[k]
    requires c.id == bp1.id && c.items.Keys == bp1.items.Keys + land
    requires forall k | k in bp1.items :: k in c.items && (bp1.items[k].NodeEntry? <==> c.items[k].NodeEntry?)
    requires forall k | k in bp1.items && k !in land :: c.items[k] == bp1.items[k]
    ensures c.id == bp.id
    ensures IsView(c, prefix)
    ensures named ==> IsGroup(c, root)
    ensures c.items.Keys == bp.items.Keys + land + (if named then {root} else {})
    ensures forall k | k in bp.items :: k in c.items && (bp.items[k].NodeEntry? <==> c.items[k].NodeEntry?)
    ensures forall k | k in bp.items && k !in land :: c.items[k] == bp.items[k]
  {
  }

  /** Resolving the merge root keeps every item and adds at most the named sub-graph. */
  lemma RootKeeps(bp: Blueprint, prefix: Path, name: Option<string>)
    requires IsView(bp, prefix) && MergeRoot(bp, prefix, name).Ok?
    ensures var bp1 := MergeRoot(bp, prefix, name).value.0;
      && bp1.id == bp.id
      && bp1.items.Keys == bp.items.Keys + (if name.Some? then {Target(prefix, name)} else {})
      && (name.Some? ==> IsGroup(bp1, Target(prefix, name)))
      && (forall k | k in bp.items :: k in bp1.items && bp1.items[k] == bp.items[k])
  {
  }

  /** The copy keeps identity, items outside the landing paths and the kinds of
      items already present, and adds only the landing paths. */
  lemma CopyKeeps(bp: Blueprint, src: Blueprint, root: Path)
    requires TreeShaped(src.items)
    ensures var c := CopyStructure(bp, src, root);
      && c.id == bp.id
      && c.items.Keys == bp.items.Keys + Landing(src, root)
      && (forall k | k in bp.items :: k in c.items && (bp.items[k].NodeEntry? <==> c.items[k].NodeEntry?))
      && (forall k | k in bp.items && k !in Landing(src, root) :: c.items[k] == bp.items[k])
  {
    CopyLookup(bp, src, root);
    CopyKeepsKinds(bp, src, root);
  }

  /**
   Where the source lands: each source node at the merge root plus its path,
   as an override of a node already there or as a rebased copy; each source
   sub-graph as a sub-graph unless an empty one meets a node.
   */
  lemma MergeLands(bp: Blueprint, prefix: Path, src: Blueprint, name: Option<string>)
    requires Wf(src) && IsView(bp, prefix) && MergeInto(bp, prefix, src, name).Ok?
    ensures var r := MergeInto(bp, prefix, src, name).value;
      forall q | IsNode(src, q) :: LandsAsNode(bp, r, src, Target(prefix, name), q)
    ensures var r := MergeInto(bp, prefix, src, name).value;
      forall q | IsGroup(src, q) && (HasChildren(src, q) || Target(prefix, name) + q !in bp.items) ::
        IsGroup(r, Target(prefix, name) + q)
  {
    var (bp1, root) := MergeRoot(bp, prefix, name).value;
    var r := MergeInto(bp, prefix, src, name).value;
    RootedConflicts(bp, prefix, src, name);
    assert r.items == CopyStructure(bp1, src, root).items;
    forall q | IsNode(src, q)
      ensures LandsAsNode(bp, r, src, root, q)
    {
      assert |root + q| > |root|;
      assert !Clash(bp1, src, root, q);
      NodeLandsAt(bp1, src, root, q);
    }
    forall q | IsGroup(src, q) && (HasChildren(src, q) || root + q !in bp.items)
      ensures IsGroup(r, root + q)
    {
      assert |root + q| > |root|;
      assert !Clash(bp1, src, root, q);
      GroupLandsAt(bp1, src, root, q);
    }
  }

  /** The source node at `q` sits at `root + q` with the source's callable and
      arguments, overriding a node that was there or as a copy rebased there. */
  ghost predicate LandsAsNode(bp: Blueprint, r: Blueprint, src: Blueprint, root: Path, q: Path)
    requires IsNode(src, q) && |q| > 0
  {
    var d := src.items[q].def;
    && IsNode(r, root + q)
    && r.items[root + q].def.func == d.func
    && r.items[root + q].def.args == d.args
    && r.items[root + q].def.kwargs == d.kwargs
    && (IsNode(bp, root + q) ==> r.items[root + q].def == bp.items[root + q].def.Update(d))
    && (root + q !in bp.items ==> r.items[root + q].def == d.Rebase(bp.id, root + Parent(q)))
  }

  /** The stages of a successful merge: resolve the root, copy the structure, copy the edges. */
  lemma Staged(bp: Blueprint, prefix: Path, src: Blueprint, name: Option<string>)
    requires Wf(src) && IsView(bp, prefix) && MergeInto(bp, prefix, src, name).Ok?
    ensures MergeRoot(bp, prefix, name).Ok?
    ensures var (bp1, root) := MergeRoot(bp, prefix, name).value;
      && root == Target(prefix, name)
      && !Conflicts(bp1, src, root)
      && MergeInto(bp, prefix, src, name).value == CopyEdges(CopyStructure(bp1, src, root), src, root)
  {
    RootedConflicts(bp, prefix, src, name);
  }

  /** The copied structure is well formed and holds every source node. */
  lemma StagedWf(bp: Blueprint, prefix: Path, src: Blueprint, name: Option<string>)
    requires Wf(bp) && Wf(src) && IsView(bp, prefix) && MergeInto(bp, prefix, src, name).Ok?
    ensures var (bp1, root) := MergeRoot(bp, prefix, name).value;
      Wf(CopyStructure(bp1, src, root)) && SourceLanded(CopyStructure(bp1, src, root), src, root)
  {
    var (bp1, root) := MergeRoot(bp, prefix, name).value;
    Staged(bp, prefix, src, name);
    MergeRootWf(bp, prefix, name);
    CopyWf(bp1, src, root);
    CopyLandsKinds(bp1, src, root);
  }

  /** The edge maps after copying the structure: the old lists, plus an empty
      list for every newly landed node. */
  lemma CopyEdgeLists(bp: Blueprint, src: Blueprint, root: Path)
    requires TreeShaped(src.items)
    requires bp.down.Keys <= bp.items.Keys && bp.up.Keys <= bp.items.Keys
    ensures var c := CopyStructure(bp, src, root);
      && (forall k | k in bp.down :: k in c.down && c.down[k] == bp.down[k])
      && (forall k | k in bp.up :: k in c.up && c.up[k] == bp.up[k])
      && (forall k | k in c.down && k !in bp.down :: c.down[k] == [])
      && (forall k | k in c.up && k !in bp.up :: c.up[k] == [])
  {
    assert FreshNodes(bp, src, root) !! bp.down.Keys;
    assert FreshNodes(bp, src, root) !! bp.up.Keys;
  }

  /** The edge maps the merge extends, against the original destination. */
  lemma StagedEdges(bp: Blueprint, prefix: Path, src: Blueprint, name: Option<string>)
    requires EdgesKeyed(bp) && Wf(src) && IsView(bp, prefix) && MergeInto(bp, prefix, src, name).Ok?
    ensures var (bp1, root) := MergeRoot(bp, prefix, name).value;
      var c := CopyStructure(bp1, src, root);
      && (forall k | k in bp.down :: k in c.down && c.down[k] == bp.down[k])
      && (forall k | k in bp.up :: k in c.up && c.up[k] == bp.up[k])
      && (forall k | k in c.down && k !in bp.down :: c.down[k] == [])
      && (forall k | k in c.up && k !in bp.up :: c.up[k] == [])
  {
    var (bp1, root) := MergeRoot(bp, prefix, name).value;
    assert bp1.down == bp.down && bp1.up == bp.up;
    assert bp.items.Keys <= bp1.items.Keys;
    CopyEdgeLists(bp1, src, root);
  }

  /**
   `_copy_edges` as a count: after the merge, an edge listed under `k` occurs
   as often as before if it was already there, and otherwise (for `k` a node
   below the merge root) as often as its un-prefixed original occurs in the
   source, repeats included.
   */
  lemma MergeEdgeCounts(bp: Blueprint, prefix: Path, src: Blueprint, name: Option<string>,
                        k: Path, t: Path, prm: Option<string>)
    requires Wf(bp) && Wf(src) && IsView(bp, prefix) && MergeInto(bp, prefix, src, name).Ok?
    ensures var r, root := MergeInto(bp, prefix, src, name).value, Target(prefix, name);
      Occurrences(r.down, k, Edge(t, prm))
      == Occurrences(bp.down, k, Edge(t, prm))
         + if IsNode(r, k) && Occurrences(bp.down, k, Edge(t, prm)) == 0 && Under(root, k) && Under(root, t)
           then Occurrences(src.down, k[|root|..], Edge(t[|root|..], prm)) else 0
    ensures var r, root := MergeInto(bp, prefix, src, name).value, Target(prefix, name);
      Occurrences(r.up, k, Edge(t, prm))
      == Occurrences(bp.up, k, Edge(t, prm))
         + if IsNode(r, k) && Occurrences(bp.up, k, Edge(t, prm)) == 0 && Under(root, k) && Under(root, t)
           then Occurrences(src.up, k[|root|..], Edge(t[|root|..], prm)) else 0
  {
    var (bp1, root) := MergeRoot(bp, prefix, name).value;
    var c := CopyStructure(bp1, src, root);
    Staged(bp, prefix, src, name);
    StagedKeyed(bp, prefix, src, name);
    StagedEdges(bp, prefix, src, name);
    CopyEdgeCounts(bp, c, src, root, k, t, prm);
    assert MergeInto(bp, prefix, src, name).value == CopyEdges(c, src, root);
  }

  /** The copied structure holds edge lists for exactly its nodes. */
  lemma StagedKeyed(bp: Blueprint, prefix: Path, src: Blueprint, name: Option<string>)
    requires Wf(bp) && Wf(src) && IsView(bp, prefix) && MergeInto(bp, prefix, src, name).Ok?
    ensures var (bp1, root) := MergeRoot(bp, prefix, name).value;
      EdgesKeyed(CopyStructure(bp1, src, root))
  {
    StagedWf(bp, prefix, src, name);
  }

  /** `MergeEdgeCounts` over the staged structure `c` that extends `before`. */
  lemma CopyEdgeCounts(before: Blueprint, c: Blueprint, src: Blueprint, root: Path,
                       k: Path, t: Path, prm: Option<string>)
    requires EdgesKeyed(c)
    requires forall k | k in before.down :: k in c.down && c.down[k] == before.down[k]
    requires forall k | k in before.up :: k in c.up && c.up[k] == before.up[k]
    requires forall k | k in c.down && k !in before.down :: c.down[k] == []
    requires forall k | k in c.up && k !in before.up :: c.up[k] == []
    ensures var r := CopyEdges(c, src, root);
      Occurrences(r.down, k, Edge(t, prm))
      == Occurrences(before.down, k, Edge(t, prm))
         + if IsNode(r, k) && Occurrences(before.down, k, Edge(t, prm)) == 0 && Under(root, k) && Under(root, t)
           then Occurrences(src.down, k[|root|..], Edge(t[|root|..], prm)) else 0
    ensures var r := CopyEdges(c, src, root);
      Occurrences(r.up, k, Edge(t, prm))
      == Occurrences(before.up, k, Edge(t, prm))
         + if IsNode(r, k) && Occurrences(before.up, k, Edge(t, prm)) == 0 && Under(root, k) && Under(root, t)
           then Occurrences(src.up, k[|root|..], Edge(t[|root|..], prm)) else 0
  {
    CountsAt(c.down, before.down, src.down, root, k, t, prm);
    CountsAt(c.up, before.up, src.up, root, k, t, prm);
    assert IsNode(c, k) <==> k in NodePaths(c);
  }

  /** `MergeEdgeCounts` for one edge map, from the staged facts. */
  lemma CountsAt(staged: map<Path, seq<Edge>>, before: map<Path, seq<Edge>>, srcm: map<Path, seq<Edge>>,
                 root: Path, k: Path, t: Path, prm: Option<string>)
    requires forall k | k in before :: k in staged && staged[k] == before[k]
    requires forall k | k in staged && k !in before :: staged[k] == []
    ensures Occurrences(MergeEdges(staged, srcm, root), k, Edge(t, prm))
         == Occurrences(before, k, Edge(t, prm))
            + if k in staged && Occurrences(before, k, Edge(t, prm)) == 0 && Under(root, k) && Under(root, t)
              then Occurrences(srcm, k[|root|..], Edge(t[|root|..], prm)) else 0
  {
    MergeEdgesCount(staged, srcm, root, k, t, prm);
    assert Occurrences(staged, k, Edge(t, prm)) == Occurrences(before, k, Edge(t, prm));
  }

  /** Every edge list the destination held survives as the front of the new
      list, and what is appended was not in it. */
  lemma MergeAppends(bp: Blueprint, prefix: Path, src: Blueprint, name: Option<string>)
    requires Wf(bp) && Wf(src) && IsView(bp, prefix) && MergeInto(bp, prefix, src, name).Ok?
    ensures var r := MergeInto(bp, prefix, src, name).value;
      && r.down.Keys == NodePaths(r) && r.up.Keys == NodePaths(r)
      && (forall k | k in bp.down :: |bp.down[k]| <= |r.down[k]| && r.down[k][..|bp.down[k]|] == bp.down[k])
      && (forall k | k in bp.up :: |bp.up[k]| <= |r.up[k]| && r.up[k][..|bp.up[k]|] == bp.up[k])
      && (forall k, e | k in bp.down && e in r.down[k][|bp.down[k]|..] :: e !in bp.down[k])
      && (forall k, e | k in bp.up && e in r.up[k][|bp.up[k]|..] :: e !in bp.up[k])
  {
    Staged(bp, prefix, src, name);
    StagedEdges(bp, prefix, src, name);
    MergeIntoWf(bp, prefix, src, name);
  }

  /** Candidates that are all listed already add nothing. */
  lemma {:induction false} UnseenNone(existing: seq<Edge>, cands: seq<Edge>)
    requires forall e | e in cands :: e in existing
    ensures Unseen(existing, cands) == []
  {
    if cands != [] {
      assert cands[0] in cands;
      UnseenNone(existing, cands[1..]);
    }
  }

  /** After one pass every candidate is listed, so a second pass adds nothing. */
  lemma UnseenTwice(existing: seq<Edge>, cands: seq<Edge>)
    ensures Unseen(existing + Unseen(existing, cands), cands) == []
  {
    var once := existing + Unseen(existing, cands);
    forall e | e in cands
      ensures e in once
    {
      if e !in existing {
        assert multiset(Unseen(existing, cands))[e] > 0;
      }
    }
    UnseenNone(once, cands);
  }

  /** `_copy_edges` twice with the same source is `_copy_edges` once. */
  lemma MergeEdgesTwice(m: map<Path, seq<Edge>>, srcm: map<Path, seq<Edge>>, root: Path)
    ensures MergeEdges(MergeEdges(m, srcm, root), srcm, root) == MergeEdges(m, srcm, root)
  {
    var once := MergeEdges(m, srcm, root);
    var twice := MergeEdges(once, srcm, root);
    forall k | k in m
      ensures twice[k] == once[k]
    {
      if Under(root, k) && k[|root|..] in srcm {
        UnseenTwice(m[k], RebaseEdges(root, srcm[k[|root|..]]));
        assert once[k] + [] == once[k];
      }
    }
  }

  /** One landed path is a fixed point of copying. */
  lemma CopiedFixedAt(r: Blueprint, src: Blueprint, root: Path, q: Path)
    requires q in src.items && |q| > 0 && root + q in r.items
    requires IsNode(src, q) ==>
               (&& IsNode(r, root + q)
                && r.items[root + q].def.func == src.items[q].def.func
                && r.items[root + q].def.args == src.items[q].def.args
                && r.items[root + q].def.kwargs == src.items[q].def.kwargs)
    ensures Copied(r, src, root, q) == r.items[root + q]
  {
  }

  /** Copying a structure that has already landed leaves every item as it was. */
  lemma CopyFixedItems(r: Blueprint, src: Blueprint, root: Path)
    requires TreeShaped(src.items)
    requires forall q | q in src.items :: root + q in r.items
    requires forall q | IsNode(src, q) :: IsNode(r, root + q)
               && r.items[root + q].def.func == src.items[q].def.func
               && r.items[root + q].def.args == src.items[q].def.args
               && r.items[root + q].def.kwargs == src.items[q].def.kwargs
    ensures CopyStructure(r, src, root).items == r.items
  {
    var c := CopyStructure(r, src, root);
    forall k | k in r.items
      ensures k in c.items && c.items[k] == r.items[k]
    {
      LookupAt(r, src, root, k);
      if k in Landing(src, root) {
        CopiedFixedAt(r, src, root, k[|root|..]);
      }
    }
    forall k | k in c.items
      ensures k in r.items
    {
      LookupAt(r, src, root, k);
    }
  }

  /** Copying a structure that has already landed changes nothing. */
  lemma CopyFixed(r: Blueprint, src: Blueprint, root: Path)
    requires TreeShaped(src.items)
    requires forall q | q in src.items :: root + q in r.items
    requires forall q | IsNode(src, q) :: IsNode(r, root + q)
               && r.items[root + q].def.func == src.items[q].def.func
               && r.items[root + q].def.args == src.items[q].def.args
               && r.items[root + q].def.kwargs == src.items[q].def.kwargs
    ensures CopyStructure(r, src, root) == r
  {
    var c := CopyStructure(r, src, root);
    assert FreshNodes(r, src, root) == {};
    assert c.down == r.down && c.up == r.up;
    CopyFixedItems(r, src, root);
  }

  /** A merge result holds every source item at its landing path, nodes with
      the source's callable and arguments and sub-graphs without a clash. */
  lemma MergeSettled(bp: Blueprint, prefix: Path, src: Blueprint, name: Option<string>)
    requires Wf(src) && IsView(bp, prefix) && MergeInto(bp, prefix, src, name).Ok?
    ensures var r, root := MergeInto(bp, prefix, src, name).value, Target(prefix, name);
      && IsView(r, prefix)
      && MergeRoot(r, prefix, name) == Ok((r, root))
      && !Conflicts(r, src, root)
      && (forall q | q in src.items :: root + q in r.items)
      && (forall q | IsNode(src, q) :: IsNode(r, root + q)
            && r.items[root + q].def.func == src.items[q].def.func
            && r.items[root + q].def.args == src.items[q].def.args
            && r.items[root + q].def.kwargs == src.items[q].def.kwargs)
  {
    var r, root := MergeInto(bp, prefix, src, name).value, Target(prefix, name);
    MergeKeeps(bp, prefix, src, name);
    if name.Some? {
      assert r.items[root := GroupEntry] == r.items;
    }
    SettledLanded(bp, prefix, src, name);
  }

  /** Every source item of a merge result is in place without a clash. */
  lemma SettledLanded(bp: Blueprint, prefix: Path, src: Blueprint, name: Option<string>)
    requires Wf(src) && IsView(bp, prefix) && MergeInto(bp, prefix, src, name).Ok?
    ensures var r, root := MergeInto(bp, prefix, src, name).value, Target(prefix, name);
      && !Conflicts(r, src, root)
      && (forall q | q in src.items :: root + q in r.items)
      && (forall q | IsNode(src, q) :: IsNode(r, root + q)
            && r.items[root + q].def.func == src.items[q].def.func
            && r.items[root + q].def.args == src.items[q].def.args
            && r.items[root + q].def.kwargs == src.items[q].def.kwargs)
  {
    var r, root := MergeInto(bp, prefix, src, name).value, Target(prefix, name);
    forall q | q in src.items
      ensures root + q in r.items && !Clash(r, src, root, q)
    {
      SettledAt(bp, prefix, src, name, q);
    }
    forall q | IsNode(src, q)
      ensures IsNode(r, root + q)
      ensures r.items[root + q].def.func == src.items[q].def.func
      ensures r.items[root + q].def.args == src.items[q].def.args
      ensures r.items[root + q].def.kwargs == src.items[q].def.kwargs
    {
      SettledAt(bp, prefix, src, name, q);
    }
  }

  /** `SettledLanded` for one source item. */
  lemma SettledAt(bp: Blueprint, prefix: Path, src: Blueprint, name: Option<string>, q: Path)
    requires Wf(src) && IsView(bp, prefix) && MergeInto(bp, prefix, src, name).Ok?
    requires q in src.items
    ensures var r, root := MergeInto(bp, prefix, src, name).value, Target(prefix, name);
      && root + q in r.items && !Clash(r, src, root, q)
      && (IsNode(src, q) ==>
            && IsNode(r, root + q)
            && r.items[root + q].def.func == src.items[q].def.func
            && r.items[root + q].def.args == src.items[q].def.args
            && r.items[root + q].def.kwargs == src.items[q].def.kwargs)
  {
    var r, root := MergeInto(bp, prefix, src, name).value, Target(prefix, name);
    MergeKeeps(bp, prefix, src, name);
    MergeLands(bp, prefix, src, name);
    assert root + q in Landing(src, root);
    if src.items[q].NodeEntry? {
      assert LandsAsNode(bp, r, src, root, q);
    }
  }

  /** Merging the same graph twice in the same way is the same as merging it once. */
  lemma MergeIdempotent(bp: Blueprint, prefix: Path, src: Blueprint, name: Option<string>)
    requires Wf(src) && IsView(bp, prefix) && MergeInto(bp, prefix, src, name).Ok?
    ensures IsView(MergeInto(bp, prefix, src, name).value, prefix)
    ensures MergeInto(MergeInto(bp, prefix, src, name).value, prefix, src, name) == MergeInto(bp, prefix, src, name)
  {
    var r, root := MergeInto(bp, prefix, src, name).value, Target(prefix, name);
    var (bp1, _) := MergeRoot(bp, prefix, name).value;
    var c := CopyStructure(bp1, src, root);
    Staged(bp, prefix, src, name);
    MergeSettled(bp, prefix, src, name);
    MergeKeeps(bp, prefix, src, name);
    CopyFixed(r, src, root);
    MergeEdgesTwice(c.down, src.down, root);
    MergeEdgesTwice(c.up, src.up, root);
  }
}
