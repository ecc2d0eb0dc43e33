/**
 Finite dependency graphs: a node is mapped to the set of nodes it directly depends on.
 Everything the other modules say about import cycles, build order and topological sorting
 is said in terms of `Reaches` (the transitive, non-reflexive closure) and `Acyclic`.
 */
module Digraph {

  type Graph<T> = map<T, set<T>>

  /** Direct dependencies; a name that is not a node has none. */
  function Deps<T>(g: Graph<T>, p: T): set<T> {
    if p in g then g[p] else {}
  }

  /** The graph with one more edge. */
  function AddEdge<T>(g: Graph<T>, u: T, v: T): Graph<T> {
    g[u := Deps(g, u) + {v}]
  }

  /** The graph with one more node, unless it is already there. */
  function AddNode<T>(g: Graph<T>, p: T): Graph<T> {
    if p in g then g else g[p := {}]
  }

  /** Every dependency is itself a node. */
  ghost predicate Closed<T>(g: Graph<T>) {
    forall p :: p in g ==> g[p] <= g.Keys
  }

  /** `h` has every edge of `g`. */
  ghost predicate Extends<T(!new)>(h: Graph<T>, g: Graph<T>) {
    forall p :: Deps(g, p) <= Deps(h, p)
  }

  ghost predicate Walk<T>(g: Graph<T>, s: seq<T>) {
    |s| >= 2 && forall i :: 0 <= i < |s| - 1 ==> s[i + 1] in Deps(g, s[i])
  }

  ghost predicate WalkFromTo<T>(g: Graph<T>, s: seq<T>, a: T, b: T) {
    Walk(g, s) && s[0] == a && s[|s| - 1] == b
  }

  /** `b` is a direct or indirect dependency of `a`. */
  ghost predicate Reaches<T(!new)>(g: Graph<T>, a: T, b: T) {
    exists s: seq<T> :: WalkFromTo(g, s, a, b)
  }

  ghost predicate Acyclic<T(!new)>(g: Graph<T>) {
    forall p: T :: !Reaches(g, p, p)
  }

  lemma EdgeReaches<T(!new)>(g: Graph<T>, a: T, b: T)
    requires b in Deps(g, a)
    ensures Reaches(g, a, b)
  {
    assert WalkFromTo(g, [a, b], a, b);
  }

  lemma ReachesTransitive<T(!new)>(g: Graph<T>, a: T, b: T, c: T)
    requires Reaches(g, a, b) && Reaches(g, b, c)
    ensures Reaches(g, a, c)
  {
    var s :| WalkFromTo(g, s, a, b);
    var t :| WalkFromTo(g, t, b, c);
    var r := s + t[1..];
    forall i | 0 <= i < |r| - 1
      ensures r[i + 1] in Deps(g, r[i])
    {
      if i < |s| - 1 {
        assert r[i] == s[i] && r[i + 1] == s[i + 1];
      } else {
        assert r[i] == t[i - (|s| - 1)] && r[i + 1] == t[i - (|s| - 1) + 1];
      }
    }
    assert WalkFromTo(g, r, a, c);
  }

  lemma StepReaches<T(!new)>(g: Graph<T>, a: T, b: T, c: T)
    requires b in Deps(g, a) && Reaches(g, b, c)
    ensures Reaches(g, a, c)
  {
    EdgeReaches(g, a, b);
    ReachesTransitive(g, a, b, c);
  }

  /** A walk starts with an edge. */
  lemma FirstStep<T(!new)>(g: Graph<T>, a: T, c: T) returns (b: T)
    requires Reaches(g, a, c)
    ensures b in Deps(g, a) && (b == c || Reaches(g, b, c))
  {
    var s :| WalkFromTo(g, s, a, c);
    b := s[1];
    if |s| > 2 {
      assert WalkFromTo(g, s[1..], b, c);
    }
  }

  /** A walk ends with an edge. */
  lemma LastStep<T(!new)>(g: Graph<T>, a: T, c: T) returns (b: T)
    requires Reaches(g, a, c)
    ensures c in Deps(g, b) && (a == b || Reaches(g, a, b))
  {
    var s :| WalkFromTo(g, s, a, c);
    b := s[|s| - 2];
    if |s| > 2 {
      assert WalkFromTo(g, s[..|s| - 1], a, b);
    }
  }

  lemma ReachesMonotone<T(!new)>(g: Graph<T>, h: Graph<T>, a: T, b: T)
    requires Extends(h, g) && Reaches(g, a, b)
    ensures Reaches(h, a, b)
  {
    var s :| WalkFromTo(g, s, a, b);
    assert forall p :: Deps(g, p) <= Deps(h, p);
    assert WalkFromTo(h, s, a, b);
  }

  /** A set that contains the dependencies of `a` and of its own members holds all `a` reaches. */
  lemma {:induction false} ReachesStaysInside<T(!new)>(g: Graph<T>, inside: set<T>, a: T, b: T)
    requires Deps(g, a) <= inside
    requires forall p :: p in inside ==> Deps(g, p) <= inside
    requires Reaches(g, a, b)
    ensures b in inside
  {
    var s :| WalkFromTo(g, s, a, b);
    WalkStaysInside(g, inside, s, |s| - 1);
  }

  lemma {:induction false} WalkStaysInside<T(!new)>(g: Graph<T>, inside: set<T>, s: seq<T>, i: nat)
    requires Walk(g, s) && 1 <= i < |s|
    requires Deps(g, s[0]) <= inside
    requires forall p :: p in inside ==> Deps(g, p) <= inside
    ensures s[i] in inside
  {
    assert s[i - 1 + 1] in Deps(g, s[i - 1]);
    if i > 1 {
      WalkStaysInside(g, inside, s, i - 1);
    }
  }

  /** What a new edge `u -> v` can add to reachability: only walks that pass through it. */
  lemma {:induction false} ReachesAfterAddEdge<T(!new)>(g: Graph<T>, u: T, v: T, a: T, b: T)
    requires Reaches(AddEdge(g, u, v), a, b)
    ensures Reaches(g, a, b) || ((a == u || Reaches(g, a, u)) && (v == b || Reaches(g, v, b)))
  {
    var s :| WalkFromTo(AddEdge(g, u, v), s, a, b);
    WalkAfterAddEdge(g, u, v, s);
  }

  lemma {:induction false} WalkAfterAddEdge<T(!new)>(g: Graph<T>, u: T, v: T, s: seq<T>)
    requires Walk(AddEdge(g, u, v), s)
    ensures var a, b := s[0], s[|s| - 1];
            Reaches(g, a, b) || ((a == u || Reaches(g, a, u)) && (v == b || Reaches(g, v, b)))
    decreases |s|
  {
    var h := AddEdge(g, u, v);
    var a, b := s[0], s[|s| - 1];
    assert s[0 + 1] in Deps(h, s[0]);
    var isNew := a == u && s[1] == v;
    if !isNew {
      assert s[1] in Deps(g, a);
      EdgeReaches(g, a, s[1]);
    }
    if |s| > 2 {
      var t := s[1..];
      assert Walk(h, t) by {
        forall i | 0 <= i < |t| - 1
          ensures t[i + 1] in Deps(h, t[i])
        {
          assert s[i + 1 + 1] in Deps(h, s[i + 1]);
        }
      }
      WalkAfterAddEdge(g, u, v, t);
      if !isNew {
        if Reaches(g, t[0], b) {
          ReachesTransitive(g, a, t[0], b);
        } else if t[0] != u {
          ReachesTransitive(g, a, t[0], u);
        }
      }
    }
  }

  lemma AddEdgeExtends<T(!new)>(g: Graph<T>, u: T, v: T)
    ensures Extends(AddEdge(g, u, v), g)
  {
  }

  lemma AddNodeKeepsDeps<T(!new)>(g: Graph<T>, p: T)
    ensures forall q :: Deps(AddNode(g, p), q) == Deps(g, q)
    ensures Extends(AddNode(g, p), g) && Extends(g, AddNode(g, p))
  {
  }

  lemma AddNodeKeepsClosed<T>(g: Graph<T>, p: T)
    requires Closed(g)
    ensures Closed(AddNode(g, p))
  {
  }

  lemma AddNodeKeepsReaches<T(!new)>(g: Graph<T>, p: T, a: T, b: T)
    ensures Reaches(AddNode(g, p), a, b) <==> Reaches(g, a, b)
  {
    AddNodeKeepsDeps(g, p);
    if Reaches(g, a, b) {
      ReachesMonotone(g, AddNode(g, p), a, b);
    }
    if Reaches(AddNode(g, p), a, b) {
      ReachesMonotone(AddNode(g, p), g, a, b);
    }
  }

  /** An edge that closes no cycle keeps the graph acyclic. */
  lemma AddEdgeKeepsAcyclic<T(!new)>(g: Graph<T>, u: T, v: T)
    requires Acyclic(g)
    ensures Acyclic(AddEdge(g, u, v)) <==> u != v && !Reaches(g, v, u)
  {
    var h := AddEdge(g, u, v);
    AddEdgeExtends(g, u, v);
    EdgeReaches(h, u, v);
    if u != v && !Reaches(g, v, u) {
      forall p: T | Reaches(h, p, p)
        ensures false
      {
        ReachesAfterAddEdge(g, u, v, p, p);
        if p != u && p != v {
          ReachesTransitive(g, v, p, u);
        }
      }
    } else if u != v {
      ReachesMonotone(g, h, v, u);
      ReachesTransitive(h, u, v, u);
    }
  }

  /** A finite, non-empty, dependency-closed part of an acyclic graph has a member without dependencies. */
  lemma {:induction false} SourceExists<T(!new)>(g: Graph<T>, s: set<T>) returns (m: T)
    requires Acyclic(g) && s != {}
    requires forall p :: p in s ==> Deps(g, p) <= s
    ensures m in s && Deps(g, m) == {}
    decreases s
  {
    m :| m in s;
    if Deps(g, m) != {} {
      var below := set y | y in s && Reaches(g, m, y);
      var d :| d in Deps(g, m);
      EdgeReaches(g, m, d);
      assert m !in below && below < s;
      forall p, q | p in below && q in Deps(g, p)
        ensures q in below
      {
        EdgeReaches(g, p, q);
        ReachesTransitive(g, m, p, q);
      }
      assert d in below;
      m := SourceExists(g, below);
    }
  }

  /** `order` lists its members so that each one comes after everything it depends on. */
  ghost predicate TopologicalOrder<T>(g: Graph<T>, order: seq<T>) {
    && (forall i, j :: 0 <= i < j < |order| ==> order[i] != order[j])
    && (forall i :: 0 <= i < |order| ==> forall d :: d in Deps(g, order[i]) ==> d in order[..i])
  }

  lemma TopologicalOrderAppend<T>(g: Graph<T>, order: seq<T>, p: T)
    requires TopologicalOrder(g, order) && p !in order
    requires forall d :: d in Deps(g, p) ==> d in order
    ensures TopologicalOrder(g, order + [p])
  {
    var longer := order + [p];
    forall i, d | 0 <= i < |longer| && d in Deps(g, longer[i])
      ensures d in longer[..i]
    {
      assert longer[..i] == if i < |order| then order[..i] else order;
    }
  }

  lemma {:induction false} TopologicalOrderReaches<T(!new)>(g: Graph<T>, order: seq<T>, i: nat, b: T)
    requires TopologicalOrder(g, order) && i < |order|
    requires Reaches(g, order[i], b)
    ensures b in order[..i]
    decreases i
  {
    var d := FirstStep(g, order[i], b);
    assert d in order[..i];
    var j :| 0 <= j < i && order[j] == d;
    if d != b {
      TopologicalOrderReaches(g, order, j, b);
      assert order[..j] <= order[..i];
      var k :| 0 <= k < j && order[k] == b;
    }
  }

  /** A graph whose nodes can all be put in topological order has no cycle. */
  lemma TopologicalOrderAcyclic<T(!new)>(g: Graph<T>, order: seq<T>)
    requires TopologicalOrder(g, order)
    requires forall p :: p in g && g[p] != {} ==> p in order
    ensures Acyclic(g)
  {
    forall p: T | Reaches(g, p, p)
      ensures false
    {
      var d := FirstStep(g, p, p);
      assert p in g && g[p] != {};
      var i :| 0 <= i < |order| && order[i] == p;
      TopologicalOrderReaches(g, order, i, p);
    }
  }
}
