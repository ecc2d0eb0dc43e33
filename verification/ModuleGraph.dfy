/**
 The module dependency graph: a vector of nodes plus an index from path to position.
 `Abs()` is the dependency map the two represent; each operation is specified on it.
 */
module ModuleGraphs {
  import opened Digraph
  import opened TopoSort
  import opened Wrappers

  datatype Path = Path(name: string)

  type PathNode = Node<Path, ()>

  /** The graph without a node and without any edge to it. */
  function Without(g: Graph<Path>, p: Path): Graph<Path> {
    map q | q in g && q != p :: g[q] - {p}
  }

  predicate Indexes(g: seq<PathNode>, index: map<Path, nat>) {
    && (forall p :: p in index ==> index[p] < |g| && g[index[p]].id == p)
    && (forall i :: 0 <= i < |g| ==> g[i].id in index && index[g[i].id] == i)
  }

  lemma IndexedIds(g: seq<PathNode>, index: map<Path, nat>)
    requires UniqueIds(g) && Indexes(g, index)
    ensures AsGraph(g).Keys == index.Keys
  {
  }

  /** Where every node is. */
  function PositionsOf(g: seq<PathNode>): (index: map<Path, nat>)
    requires UniqueIds(g)
    ensures Indexes(g, index)
  {
    var index := map i | 0 <= i < |g| :: g[i].id := i;
    assert forall i :: 0 <= i < |g| ==> g[i].id in index;
    index
  }

  lemma AppendNode(g: seq<PathNode>, index: map<Path, nat>, p: Path)
    requires UniqueIds(g) && Indexes(g, index) && p !in index
    ensures var h := g + [Node(p, (), {})];
            UniqueIds(h) && Indexes(h, index[p := |g|]) && AsGraph(h) == AddNode(AsGraph(g), p)
  {
    hide AsGraph;
    IndexedIds(g, index);
    var h := g + [Node(p, (), {})];
    assert p !in AsGraph(g);
    IndexedIds(h, index[p := |g|]);
    GraphByNodes(h, AddNode(AsGraph(g), p));
  }

  lemma UpdateNode(g: seq<PathNode>, index: map<Path, nat>, p: Path, deps: set<Path>)
    requires UniqueIds(g) && Indexes(g, index) && p in index
    ensures var h := g[index[p] := g[index[p]].(dependsOn := deps)];
            UniqueIds(h) && Indexes(h, index) && AsGraph(h) == AsGraph(g)[p := deps]
  {
    var h := g[index[p] := g[index[p]].(dependsOn := deps)];
    IndexedIds(g, index);
    IndexedIds(h, index);
    GraphByNodes(h, AsGraph(g)[p := deps]);
  }

  function ShiftedIndex(index: map<Path, nat>, p: Path): map<Path, nat>
    requires p in index
  {
    map q | q in index && q != p :: if index[q] > index[p] then index[q] - 1 else index[q]
  }

  function NodesBut(g: seq<PathNode>, i: nat): (h: seq<PathNode>)
    requires i < |g|
    ensures |h| == |g| - 1 && forall k :: 0 <= k < |h| ==> h[k] == g[if k < i then k else k + 1]
  {
    g[..i] + g[i + 1..]
  }

  lemma DropNodeIndex(g: seq<PathNode>, index: map<Path, nat>, p: Path)
    requires UniqueIds(g) && Indexes(g, index) && p in index
    ensures UniqueIds(NodesBut(g, index[p])) && Indexes(NodesBut(g, index[p]), ShiftedIndex(index, p))
  {
    var i, h := index[p], NodesBut(g, index[p]);
    forall q | q in ShiftedIndex(index, p)
      ensures ShiftedIndex(index, p)[q] < |h| && h[ShiftedIndex(index, p)[q]].id == q
    {
      assert g[index[q]].id == q && index[q] != i;
    }
    forall k | 0 <= k < |h|
      ensures h[k].id in ShiftedIndex(index, p) && ShiftedIndex(index, p)[h[k].id] == k
    {
      var k' := if k < i then k else k + 1;
      assert h[k] == g[k'] && index[g[k'].id] == k';
    }
  }

  lemma DropNode(g: seq<PathNode>, index: map<Path, nat>, p: Path)
    requires UniqueIds(g) && Indexes(g, index) && p in index
    ensures var h := NodesBut(g, index[p]);
            UniqueIds(h) && Indexes(h, ShiftedIndex(index, p)) && AsGraph(h) == AsGraph(g) - {p}
  {
    hide AsGraph;
    var i, h := index[p], NodesBut(g, index[p]);
    DropNodeIndex(g, index, p);
    IndexedIds(g, index);
    IndexedIds(h, ShiftedIndex(index, p));
    forall k | 0 <= k < |h|
      ensures h[k].id in AsGraph(g) - {p} && (AsGraph(g) - {p})[h[k].id] == h[k].dependsOn
    {
      var k' := if k < i then k else k + 1;
      assert h[k] == g[k'] && index[g[k'].id] == k' && h[k].id != p;
    }
    GraphByNodes(h, AsGraph(g) - {p});
  }

  function WithoutEdges(g: Graph<Path>, p: Path): Graph<Path> {
    map q | q in g :: g[q] - {p}
  }

  function WithoutEdgesTo(g: seq<PathNode>, p: Path): seq<PathNode> {
    seq(|g|, k requires 0 <= k < |g| => g[k].(dependsOn := g[k].dependsOn - {p}))
  }

  lemma DropEdges(g: seq<PathNode>, index: map<Path, nat>, p: Path)
    requires UniqueIds(g) && Indexes(g, index)
    ensures var h := WithoutEdgesTo(g, p);
            && UniqueIds(h) && Indexes(h, index)
            && AsGraph(h) == WithoutEdges(AsGraph(g), p)
  {
    var h := WithoutEdgesTo(g, p);
    IndexedIds(g, index);
    IndexedIds(h, index);
    GraphByNodes(h, WithoutEdges(AsGraph(g), p));
  }

  lemma RemoveInTwoSteps(g: Graph<Path>, p: Path)
    ensures WithoutEdges(g - {p}, p) == Without(g, p)
    ensures p !in g ==> WithoutEdges(g, p) == Without(g, p)
  {
  }

  class ModuleGraph {
    var graph: seq<PathNode>
    var index: map<Path, nat>

    /** The index locates every node, and nothing else. */
    ghost predicate Valid()
      reads this
    {
      UniqueIds(graph) && Indexes(graph, index)
    }

    ghost function Abs(): Graph<Path>
      reads this
      requires UniqueIds(graph)
    {
      AsGraph(graph)
    }

    constructor ()
      ensures Valid() && Abs() == map[]
    {
      graph, index := [], map[];
    }

    constructor CloneOf(other: ModuleGraph)
      requires other.Valid()
      ensures Valid() && Abs() == other.Abs()
    {
      graph, index := other.graph, other.index;
    }

    method GetNode(path: Path) returns (r: Option<PathNode>)
      requires Valid()
      ensures r.Some? <==> path in Abs()
      ensures r.Some? ==> r.value.dependsOn == Abs()[path]
    {
      IndexedIds(graph, index);
      if path in index {
        return Some(graph[index[path]]);
      }
      return None;
    }

    method Parents(path: Path) returns (r: Option<set<Path>>)
      requires Valid()
      ensures r == if path in Abs() then Some(Abs()[path]) else None
    {
      var node := GetNode(path);
      return if node.Some? then Some(node.value.dependsOn) else None;
    }

    method AddNodeIfNone(path: Path)
      requires Valid()
      modifies this
      ensures Valid() && Abs() == AddNode(old(Abs()), path)
    {
      IndexedIds(graph, index);
      if path !in index {
        AppendNode(graph, index, path);
        graph := graph + [Node(path, (), {})];
        index := index[path := |graph| - 1];
      }
    }

    /** Depth-first search for a dependency on `target`; `visited` grows by nodes that do not have it. */
    method DeepDependsOnFrom(path: Path, target: Path, visited0: set<Path>)
      returns (found: bool, visited: set<Path>)
      requires Valid()
      ensures found ==> Reaches(Abs(), path, target)
      ensures visited0 + {path} <= visited
      ensures !found ==> forall p :: p in visited - visited0 ==>
                target !in Deps(Abs(), p) && Deps(Abs(), p) <= visited
      decreases Abs().Keys - visited0
    {
      visited := visited0 + {path};
      if path in visited0 {
        return false, visited;
      }
      var node := GetNode(path);
      if node.None? {
        return false, visited;
      }
      if target in node.value.dependsOn {
        EdgeReaches(Abs(), path, target);
        return true, visited;
      }
      var rest := node.value.dependsOn;
      while rest != {}
        invariant visited0 + {path} <= visited
        invariant rest <= Abs()[path] && Abs()[path] - rest <= visited
        invariant forall p :: p in visited - visited0 && p != path ==>
                    target !in Deps(Abs(), p) && Deps(Abs(), p) <= visited
      {
        var p :| p in rest;
        rest := rest - {p};
        assert path in Abs().Keys - visited0 && path !in Abs().Keys - visited;
        found, visited := DeepDependsOnFrom(p, target, visited);
        if found {
          StepReaches(Abs(), path, p, target);
          return;
        }
      }
      return false, visited;
    }

    method DeepDependsOn(path: Path, target: Path) returns (r: bool)
      requires Valid()
      ensures r <==> Reaches(Abs(), path, target)
    {
      var visited;
      r, visited := DeepDependsOnFrom(path, target, {});
      if !r && Reaches(Abs(), path, target) {
        ghost var q := LastStep(Abs(), path, target);
        assert visited == visited - {};
        if q != path {
          ReachesStaysInside(Abs(), visited, path, q);
        }
      }
    }

    /** Everything `path` depends on, directly or not. */
    method Ancestors(path: Path) returns (r: set<Path>)
      requires Valid()
      ensures forall p :: p in r <==> Reaches(Abs(), path, p)
    {
      var visited;
      r, visited := AncestorsFrom(path, {}, {}, path);
      forall p | Reaches(Abs(), path, p)
        ensures p in r
      {
        ReachesStaysInside(Abs(), r, path, p);
      }
    }

    method AncestorsFrom(path: Path, ancestors0: set<Path>, visited0: set<Path>, ghost start: Path)
      returns (ancestors: set<Path>, visited: set<Path>)
      requires Valid()
      requires ancestors0 <= visited0 + {path}
      requires path == start || Reaches(Abs(), start, path)
      requires forall p :: p in ancestors0 ==> Reaches(Abs(), start, p)
      ensures ancestors0 <= ancestors <= visited && visited0 + {path} <= visited
      ensures forall p :: p in ancestors ==> Reaches(Abs(), start, p)
      ensures forall p :: p in visited - visited0 ==> Deps(Abs(), p) <= ancestors
      decreases Abs().Keys - visited0
    {
      ancestors, visited := ancestors0, visited0 + {path};
      if path in visited0 {
        return;
      }
      var parents := Parents(path);
      if parents.None? {
        return;
      }
      var rest := parents.value;
      while rest != {}
        invariant rest <= Abs()[path] && Abs()[path] - rest <= ancestors
        invariant ancestors0 <= ancestors <= visited && visited0 + {path} <= visited
        invariant forall p :: p in ancestors ==> Reaches(Abs(), start, p)
        invariant forall p :: p in visited - visited0 && p != path ==> Deps(Abs(), p) <= ancestors
      {
        var parent :| parent in rest;
        rest := rest - {parent};
        if parent !in ancestors {
          EdgeReaches(Abs(), path, parent);
          if path != start {
            ReachesTransitive(Abs(), start, path, parent);
          }
          assert path in Abs().Keys - visited0 && path !in Abs().Keys - visited;
          ancestors, visited := AncestorsFrom(parent, ancestors + {parent}, visited, start);
        }
      }
    }

    /** Fails, and adds nothing but the referrer's node, exactly when the new edge would close a cycle. */
    method IncRef(referrer: Path, dependsOn: Path) returns (ok: bool)
      requires Valid()
      modifies this
      ensures Valid()
      ensures ok <==> referrer == dependsOn || !Reaches(old(Abs()), dependsOn, referrer)
      ensures Abs() == if ok && referrer != dependsOn then AddEdge(old(Abs()), referrer, dependsOn)
                       else AddNode(old(Abs()), referrer)
    {
      ghost var before := Abs();
      AddNodeIfNone(referrer);
      if referrer == dependsOn {
        return true;
      }
      AddNodeKeepsReaches(before, referrer, dependsOn, referrer);
      var cyclic := DeepDependsOn(dependsOn, referrer);
      if cyclic {
        return false;
      }
      PushDep(referrer, dependsOn);
      return true;
    }

    method PushDep(referrer: Path, dependsOn: Path)
      requires Valid() && referrer in Abs()
      modifies this
      ensures Valid() && Abs() == AddEdge(old(Abs()), referrer, dependsOn)
    {
      IndexedIds(graph, index);
      var i := index[referrer];
      var deps := graph[i].dependsOn + {dependsOn};
      UpdateNode(graph, index, referrer, deps);
      graph := graph[i := graph[i].(dependsOn := deps)];
    }

    /** Removes the node and every edge to it; positions after it shift down. */
    method Remove(path: Path)
      requires Valid()
      modifies this
      ensures Valid() && Abs() == Without(old(Abs()), path)
    {
      var nodes, shifted := graph, index;
      IndexedIds(nodes, shifted);
      if path in shifted {
        DropNode(nodes, shifted, path);
        nodes, shifted := NodesBut(nodes, shifted[path]), ShiftedIndex(shifted, path);
      }
      DropEdges(nodes, shifted, path);
      RemoveInTwoSteps(Abs(), path);
      graph, index := WithoutEdgesTo(nodes, path), shifted;
    }

    /** On success the same graph in topological order with a fresh index; on failure the graph is lost. */
    method Sort() returns (res: Result<()>)
      requires UniqueIds(graph)
      modifies this
      ensures Valid()
      ensures res.Ok? <==> Acyclic(old(Abs())) && Closed(old(Abs()))
      ensures res.Ok? ==> Abs() == old(Abs()) && Sorted(graph)
      ensures res.Err? ==> Abs() == map[]
    {
      hide AsGraph, PositionsOf;
      var taken := graph;
      graph, index := [], map[];
      var r := Tsort(taken);
      if r.Err? {
        return Err(r.kind);
      }
      graph := r.value;
      index := PositionsOf(graph);
      return Ok(());
    }

    /**
     Renames a node and every edge to it, but leaves the index as it was: the result is well-formed
     only if there was nothing to rename in the index. `Sort`, which rebuilds the index, may still follow.
     */
    method RenamePath(from: Path, to: Path)
      requires Valid()
      modifies this
      ensures index == old(index) && |graph| == |old(graph)|
      ensures forall i :: 0 <= i < |graph| ==> graph[i] == Renamed(old(graph)[i], from, to)
      ensures Valid() <==> from !in old(Abs()) || from == to
      ensures UniqueIds(graph) <==> from !in old(Abs()) || to !in old(Abs()) || from == to
      ensures UniqueIds(graph) ==>
                (IsRenaming(old(Abs()), Abs(), from, to) <==> from != to || forall p :: from !in Deps(old(Abs()), p))
    {
      hide IsRenaming, AsGraph, UniqueIds, Indexes, Renamed;
      IndexedIds(graph, index);
      ghost var before := graph;
      graph := seq(|graph|, k requires 0 <= k < |graph| reads this => Renamed(graph[k], from, to));
      StaleIndex(before, graph, index, from, to);
      RenamedIds(before, graph, from, to);
      if UniqueIds(graph) {
        RenamedIff(before, graph, from, to);
      }
    }
  }

  function Renamed(n: PathNode, from: Path, to: Path): PathNode {
    var deps := if from in n.dependsOn then n.dependsOn + {to} else n.dependsOn;
    Node(if n.id == from then to else n.id, n.data, deps - {from})
  }

  /** The old index still locates the renamed nodes exactly if none was renamed. */
  lemma StaleIndex(g: seq<PathNode>, h: seq<PathNode>, index: map<Path, nat>, from: Path, to: Path)
    requires UniqueIds(g) && Indexes(g, index) && |h| == |g| && forall i :: 0 <= i < |g| ==> h[i] == Renamed(g[i], from, to)
    ensures UniqueIds(h) && Indexes(h, index) <==> from !in index || from == to
  {
    if from in index && from != to {
      assert h[index[from]].id == to;
    } else {
      assert forall i :: 0 <= i < |g| ==> h[i].id == g[i].id;
    }
  }

  function NewName(p: Path, from: Path, to: Path): Path {
    if p == from then to else p
  }

  ghost function NewNames(s: set<Path>, from: Path, to: Path): set<Path> {
    set d | d in s :: NewName(d, from, to)
  }

  /** `h` is `g` with the new name in place of the old one, everywhere. */
  ghost predicate IsRenaming(g: Graph<Path>, h: Graph<Path>, from: Path, to: Path) {
    && (forall p :: p in g ==> NewName(p, from, to) in h && h[NewName(p, from, to)] == NewNames(g[p], from, to))
    && (forall q :: q in h ==> exists p :: p in g && NewName(p, from, to) == q)
  }

  /** The nodes still have different names exactly if the new name was none of the others. */
  lemma RenamedIds(g: seq<PathNode>, h: seq<PathNode>, from: Path, to: Path)
    requires UniqueIds(g) && |h| == |g| && forall i :: 0 <= i < |g| ==> h[i] == Renamed(g[i], from, to)
    ensures UniqueIds(h) ==> NodesRenamed(g, h, from, to)
    ensures UniqueIds(h) <==> from !in AsGraph(g) || to !in AsGraph(g) || from == to
  {
    hide AsGraph;
    if from in AsGraph(g) && to in AsGraph(g) && from != to {
      var i :| 0 <= i < |g| && g[i].id == from;
      var j :| 0 <= j < |g| && g[j].id == to;
      assert h[i].id == h[j].id;
    } else {
      forall i, j | 0 <= i < j < |h|
        ensures h[i].id != h[j].id
      {
        assert g[i].id != g[j].id && g[i].id in AsGraph(g) && g[j].id in AsGraph(g);
      }
    }
  }

  /** What becomes of the dependencies of a node: the new names, unless the old name is kept, which drops it. */
  lemma RenamedDeps(n: PathNode, from: Path, to: Path)
    ensures Renamed(n, from, to).dependsOn == NewNames(n.dependsOn, from, to) <==>
              from != to || from !in n.dependsOn
  {
    var image := NewNames(n.dependsOn, from, to);
    if from in n.dependsOn {
      assert NewName(from, from, to) in image;
    }
    forall d | d in n.dependsOn && d != from
      ensures d in image
    {
      assert NewName(d, from, to) == d;
    }
  }

  ghost predicate NodesRenamed(g: seq<PathNode>, h: seq<PathNode>, from: Path, to: Path) {
    UniqueIds(g) && UniqueIds(h) && |h| == |g| && forall i :: 0 <= i < |g| ==> h[i] == Renamed(g[i], from, to)
  }

  lemma NodeRenamed(g: seq<PathNode>, h: seq<PathNode>, from: Path, to: Path, i: nat)
    requires NodesRenamed(g, h, from, to) && i < |g|
    ensures g[i].id in AsGraph(g) && AsGraph(g)[g[i].id] == g[i].dependsOn && h[i].id == NewName(g[i].id, from, to)
    ensures h[i].id in AsGraph(h) && AsGraph(h)[h[i].id] == Renamed(g[i], from, to).dependsOn
  {
    hide AsGraph;
  }

  /** The graph is the renamed one exactly if the new name is new, or nothing depends on it. */
  lemma RenamedIff(g: seq<PathNode>, h: seq<PathNode>, from: Path, to: Path)
    requires UniqueIds(g) && UniqueIds(h) && NodesRenamed(g, h, from, to)
    ensures IsRenaming(AsGraph(g), AsGraph(h), from, to) <==> from != to || forall p :: from !in Deps(AsGraph(g), p)
  {
    hide AsGraph, NodesRenamed, Renamed, NewName, NewNames, UniqueIds;
    var (a, b) := (AsGraph(g), AsGraph(h));
    forall p | p in a
      ensures NewName(p, from, to) in b
      ensures b[NewName(p, from, to)] == NewNames(a[p], from, to) <==> from != to || from !in a[p]
    {
      var i :| 0 <= i < |g| && g[i].id == p;
      NodeRenamed(g, h, from, to, i);
      RenamedDeps(g[i], from, to);
    }
    forall q | q in b
      ensures exists p :: p in a && NewName(p, from, to) == q
    {
      var i :| 0 <= i < |h| && h[i].id == q;
      SameLengths(g, h, from, to);
      NodeRenamed(g, h, from, to, i);
    }
    if from != to || forall p :: from !in Deps(a, p) {
      assert forall p :: p in a ==> from != to || from !in Deps(a, p);
    } else {
      var p :| from in Deps(a, p);
      assert p in a && b[NewName(p, from, to)] != NewNames(a[p], from, to);
    }
  }

  lemma SameLengths(g: seq<PathNode>, h: seq<PathNode>, from: Path, to: Path)
    requires NodesRenamed(g, h, from, to)
    ensures |h| == |g|
  {
  }
}
