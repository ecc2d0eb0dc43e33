/**
 Topological sort: depth-first search with cycle detection, followed by a reordering of the nodes.
 `used` and `idx` are the visited set and the finishing order of the search; the ghost `stack`
 holds the nodes whose search has started but not finished, outermost first.
 */
module TopoSort {
  import opened Digraph
  import opened Wrappers

  datatype ErrorKind = CyclicReference | KeyNotFound

  datatype Result<+V> = Ok(value: V) | Err(kind: ErrorKind)

  datatype Node<T, U> = Node(id: T, data: U, dependsOn: set<T>)

  predicate UniqueIds<T(==), U>(g: seq<Node<T, U>>) {
    forall i, j :: 0 <= i < j < |g| ==> g[i].id != g[j].id
  }

  ghost predicate IsId<T, U>(g: seq<Node<T, U>>, v: T) {
    exists i :: 0 <= i < |g| && g[i].id == v
  }

  ghost function AsGraph<T(!new), U>(g: seq<Node<T, U>>): (r: Graph<T>)
    requires UniqueIds(g)
    ensures forall v: T :: v in r <==> IsId(g, v)
    ensures forall i :: 0 <= i < |g| ==> g[i].id in r && r[g[i].id] == g[i].dependsOn
  {
    var r := map n | n in g :: n.id := n.dependsOn;
    assert forall i :: 0 <= i < |g| ==> g[i] in g && g[i].id in r;
    r
  }

  predicate Distinct<T(==)>(s: seq<T>) {
    forall i, j :: 0 <= i < j < |s| ==> s[i] != s[j]
  }

  /** What the search keeps true between any two of its steps. */
  ghost predicate DfsState<T(!new), U>(g: seq<Node<T, U>>, used: set<T>, idx: seq<T>, stack: seq<T>)
    requires UniqueIds(g)
  {
    && TopologicalOrder(AsGraph(g), idx)
    && Distinct(stack)
    && (forall v :: v in used <==> v in idx || v in stack)
    && (forall v :: v in idx ==> v !in stack && IsId(g, v))
    && (forall i :: 0 <= i < |stack| - 1 ==> stack[i + 1] in Deps(AsGraph(g), stack[i]))
  }

  /** Along the stack every node reaches the ones above it. */
  lemma {:induction false} StackReaches<T(!new)>(g: Graph<T>, stack: seq<T>, i: nat, j: nat)
    requires forall k :: 0 <= k < |stack| - 1 ==> stack[k + 1] in Deps(g, stack[k])
    requires i < j < |stack|
    ensures Reaches(g, stack[i], stack[j])
    decreases j
  {
    assert stack[j - 1 + 1] in Deps(g, stack[j - 1]);
    EdgeReaches(g, stack[j - 1], stack[j]);
    if i < j - 1 {
      StackReaches(g, stack, i, j - 1);
      ReachesTransitive(g, stack[i], stack[j - 1], stack[j]);
    }
  }

  method FindNode<T(==), U>(g: seq<Node<T, U>>, v: T) returns (r: Option<nat>)
    ensures r.Some? ==> r.value < |g| && g[r.value].id == v
    ensures r.None? <==> !IsId(g, v)
  {
    for i := 0 to |g|
      invariant forall j :: 0 <= j < i ==> g[j].id != v
    {
      if g[i].id == v {
        return Some(i);
      }
    }
    return None;
  }

  /** Depth-first search from `v`; the dependencies are visited in any order. */
  method Dfs<T(==, !new), U>(g: seq<Node<T, U>>, v: T, used0: set<T>, idx0: seq<T>, ghost stack: seq<T>)
    returns (res: Result<()>, used: set<T>, idx: seq<T>)
    requires UniqueIds(g) && DfsState(g, used0, idx0, stack)
    requires v !in used0
    requires |stack| > 0 ==> v in Deps(AsGraph(g), stack[|stack| - 1])
    ensures res.Ok? ==> DfsState(g, used, idx, stack) && idx0 <= idx && v in idx
    ensures res == Err(CyclicReference) ==> !Acyclic(AsGraph(g))
    ensures res == Err(KeyNotFound) ==> !IsId(g, v) || !Closed(AsGraph(g))
    decreases AsGraph(g).Keys - used0
  {
    hide Reaches;
    ghost var graph := AsGraph(g);
    used, idx := used0 + {v}, idx0;
    var found := FindNode(g, v);
    if found.None? {
      return Err(KeyNotFound), used, idx;
    }
    var rest := g[found.value].dependsOn;
    ghost var path := stack + [v];
    assert graph[v] == rest;
    while rest != {}
      invariant DfsState(g, used, idx, path) && idx0 <= idx
      invariant used0 + {v} <= used
      invariant rest <= graph[v]
      invariant forall d :: d in graph[v] - rest ==> d in idx
    {
      var d :| d in rest;
      rest := rest - {d};
      if d in used && d !in idx {
        assert d in path;
        ghost var i :| 0 <= i < |path| && path[i] == d;
        EdgeReaches(graph, v, d);
        if i < |path| - 1 {
          StackReaches(graph, path, i, |path| - 1);
          ReachesTransitive(graph, d, v, d);
        }
        return Err(CyclicReference), used, idx;
      }
      if d !in used {
        assert v in graph.Keys - used0 && v !in graph.Keys - used;
        var r;
        r, used, idx := Dfs(g, d, used, idx, path);
        if r.Err? {
          assert d in graph[v];
          return r, used, idx;
        }
      }
    }
    assert v == path[|stack|] && v !in idx;
    TopologicalOrderAppend(graph, idx, v);
    idx := idx + [v];
    assert path[..|stack|] == stack && path[|stack|] == v;
    return Ok(()), used, idx;
  }

  method PositionOf<T(==)>(idx: seq<T>, x: T) returns (k: nat)
    requires x in idx
    ensures k < |idx| && idx[k] == x
  {
    k := 0;
    while idx[k] != x
      invariant k < |idx| && x in idx[k..]
      decreases |idx| - k
    {
      k := k + 1;
    }
  }

  lemma {:induction false} IncreasingIsIdentity(f: seq<nat>, i: nat)
    requires forall a, b :: 0 <= a < b < |f| ==> f[a] < f[b]
    requires forall a :: 0 <= a < |f| ==> f[a] < |f|
    requires i < |f|
    ensures f[i] == i
  {
    LowerBound(f, i);
    UpperBound(f, i);
  }

  lemma {:induction false} LowerBound(f: seq<nat>, i: nat)
    requires forall a, b :: 0 <= a < b < |f| ==> f[a] < f[b]
    requires i < |f|
    ensures f[i] >= i
  {
    if i > 0 {
      LowerBound(f, i - 1);
    }
  }

  lemma {:induction false} UpperBound(f: seq<nat>, i: nat)
    requires forall a, b :: 0 <= a < b < |f| ==> f[a] < f[b]
    requires forall a :: 0 <= a < |f| ==> f[a] < |f|
    requires i < |f|
    ensures f[i] <= i
    decreases |f| - i
  {
    if i < |f| - 1 {
      UpperBound(f, i + 1);
    }
  }

  /** The ids of `r` stand in `idx` at the strictly increasing positions `keys`. */
  predicate ByPosition<T(==), U>(idx: seq<T>, r: seq<Node<T, U>>, keys: seq<nat>) {
    && |keys| == |r|
    && (forall i :: 0 <= i < |r| ==> keys[i] < |idx| && idx[keys[i]] == r[i].id)
    && (forall a, b :: 0 <= a < b < |r| ==> keys[a] < keys[b])
  }

  /** One round of a stable insertion sort. */
  method InsertByPosition<T(==), U>(idx: seq<T>, r: seq<Node<T, U>>, keys: seq<nat>, n: Node<T, U>)
    returns (s: seq<Node<T, U>>, keys': seq<nat>)
    requires ByPosition(idx, r, keys) && n.id in idx
    requires forall i :: 0 <= i < |r| ==> r[i].id != n.id
    ensures ByPosition(idx, s, keys') && multiset(s) == multiset(r) + multiset{n} && |s| == |r| + 1
  {
    var key := PositionOf(idx, n.id);
    var k := 0;
    while k < |r| && keys[k] <= key
      invariant k <= |r|
      invariant forall a :: 0 <= a < k ==> keys[a] < key
    {
      k := k + 1;
    }
    s, keys' := r[..k] + [n] + r[k..], keys[..k] + [key] + keys[k..];
    InsertedOnce(r, k, n);
    InsertedByPosition(idx, r, keys, n, key, k);
  }

  lemma InsertedByPosition<T, U>(idx: seq<T>, r: seq<Node<T, U>>, keys: seq<nat>, n: Node<T, U>, key: nat, k: nat)
    requires ByPosition(idx, r, keys) && k <= |r| && key < |idx| && idx[key] == n.id
    requires forall i :: 0 <= i < |r| ==> r[i].id != n.id
    requires (forall a :: 0 <= a < k ==> keys[a] < key) && (k < |r| ==> key < keys[k])
    ensures ByPosition(idx, r[..k] + [n] + r[k..], keys[..k] + [key] + keys[k..])
  {
  }

  lemma InsertedOnce<N>(r: seq<N>, k: nat, n: N)
    requires k <= |r|
    ensures multiset(r[..k] + [n] + r[k..]) == multiset(r) + multiset{n}
  {
    assert r == r[..k] + r[k..];
  }

  /** Stable sort of the nodes by the position of their id in `idx`; no id is ever missing from `idx`. */
  method ReorderByKey<T(==), U>(g: seq<Node<T, U>>, idx: seq<T>) returns (r: seq<Node<T, U>>)
    requires UniqueIds(g) && |idx| == |g|
    requires forall i :: 0 <= i < |g| ==> g[i].id in idx
    ensures multiset(r) == multiset(g)
    ensures |r| == |g| && forall i :: 0 <= i < |r| ==> r[i].id == idx[i]
  {
    var keys: seq<nat>;
    r, keys := [], [];
    for i := 0 to |g|
      invariant ByPosition(idx, r, keys) && |r| == i
      invariant multiset(r) == multiset(g[..i])
    {
      forall j | 0 <= j < |r|
        ensures r[j].id != g[i].id
      {
        assert r[j] in multiset(g[..i]);
      }
      assert g[..i + 1] == g[..i] + [g[i]];
      r, keys := InsertByPosition(idx, r, keys, g[i]);
    }
    assert g[..|g|] == g;
    forall i | 0 <= i < |r|
      ensures r[i].id == idx[i]
    {
      IncreasingIsIdentity(keys, i);
    }
  }

  /** In `r` every node comes after all the nodes it depends on. */
  ghost predicate Sorted<T, U>(r: seq<Node<T, U>>) {
    forall i, d :: 0 <= i < |r| && d in r[i].dependsOn ==> exists j :: 0 <= j < i && r[j].id == d
  }

  /** Sorting succeeds exactly on the graphs that have no cycle and no dangling dependency. */
  method Tsort<T(==, !new), U>(g: seq<Node<T, U>>) returns (res: Result<seq<Node<T, U>>>)
    requires UniqueIds(g)
    ensures res.Ok? <==> Acyclic(AsGraph(g)) && Closed(AsGraph(g))
    ensures res.Ok? ==> multiset(res.value) == multiset(g) && Sorted(res.value)
    ensures res.Ok? ==> UniqueIds(res.value) && AsGraph(res.value) == AsGraph(g)
    ensures res == Err(CyclicReference) ==> !Acyclic(AsGraph(g))
    ensures res == Err(KeyNotFound) ==> !Closed(AsGraph(g))
  {
    ghost var graph := AsGraph(g);
    var idx: seq<T>, used: set<T> := [], {};
    for i := 0 to |g|
      invariant DfsState(g, used, idx, [])
      invariant forall j :: 0 <= j < i ==> g[j].id in idx
    {
      if g[i].id !in used {
        assert IsId(g, g[i].id);
        var r;
        r, used, idx := Dfs(g, g[i].id, used, idx, []);
        if r.Err? {
          assert r.kind.CyclicReference? || r.kind.KeyNotFound?;
          return Err(r.kind);
        }
      }
    }
    TopologicalOrderAcyclic(graph, idx);
    forall p, d | p in graph && d in graph[p]
      ensures d in graph
    {
      var j :| 0 <= j < |idx| && idx[j] == p;
      assert d in Deps(graph, idx[j]);
    }
    SameLength(g, idx);
    var r := ReorderByKey(g, idx);
    SameNodes(g, r);
    SortedByOrder(g, r, idx);
    return Ok(r);
  }

  /** Nodes in the order of a topological order of their ids are sorted. */
  lemma SortedByOrder<T(!new), U>(g: seq<Node<T, U>>, r: seq<Node<T, U>>, idx: seq<T>)
    requires UniqueIds(g) && TopologicalOrder(AsGraph(g), idx) && multiset(r) == multiset(g) && |r| == |idx|
    requires forall i :: 0 <= i < |r| ==> r[i].id == idx[i]
    ensures Sorted(r)
  {
    hide AsGraph;
    forall i, d | 0 <= i < |r| && d in r[i].dependsOn
      ensures exists j :: 0 <= j < i && r[j].id == d
    {
      assert r[i] in multiset(g);
      var k :| 0 <= k < |g| && g[k] == r[i];
      assert d in Deps(AsGraph(g), idx[i]);
      var j :| 0 <= j < i && idx[j] == d;
      assert r[j].id == d;
    }
  }

  /** A permutation of the nodes represents the same graph. */
  lemma SameNodes<T(!new), U>(g: seq<Node<T, U>>, h: seq<Node<T, U>>)
    requires UniqueIds(g) && UniqueIds(h) && multiset(g) == multiset(h)
    ensures AsGraph(h) == AsGraph(g)
  {
    forall i | 0 <= i < |h|
      ensures h[i].id in AsGraph(g) && AsGraph(g)[h[i].id] == h[i].dependsOn
    {
      assert h[i] in multiset(g);
    }
    forall i | 0 <= i < |g|
      ensures g[i].id in AsGraph(h)
    {
      assert g[i] in multiset(h);
    }
    GraphByNodes(h, AsGraph(g));
  }

  /** A map that agrees with every node, and has no other key, is the graph. */
  lemma GraphByNodes<T(!new), U>(g: seq<Node<T, U>>, m: Graph<T>)
    requires UniqueIds(g)
    requires forall p :: p in m ==> IsId(g, p)
    requires forall i :: 0 <= i < |g| ==> g[i].id in m && m[g[i].id] == g[i].dependsOn
    ensures AsGraph(g) == m
  {
  }

  /** The finishing order lists every id exactly once. */
  lemma SameLength<T(!new), U>(g: seq<Node<T, U>>, idx: seq<T>)
    requires UniqueIds(g) && Distinct(idx)
    requires forall j :: 0 <= j < |g| ==> g[j].id in idx
    requires forall v :: v in idx ==> IsId(g, v)
    ensures |idx| == |g|
  {
    var ids := seq(|g|, i requires 0 <= i < |g| => g[i].id);
    DistinctCardinality(ids);
    DistinctCardinality(idx);
    assert Members(ids) == Members(idx) by {
      forall v | v in idx
        ensures v in ids
      {
        var i :| 0 <= i < |g| && g[i].id == v;
        assert ids[i] == v;
      }
    }
  }

  ghost function Members<T>(s: seq<T>): set<T> {
    set x | x in s
  }

  lemma {:induction false} DistinctCardinality<T>(s: seq<T>)
    requires Distinct(s)
    ensures |Members(s)| == |s|
  {
    if s != [] {
      var n := |s| - 1;
      DistinctCardinality(s[..n]);
      assert s == s[..n] + [s[n]];
      assert Members(s) == Members(s[..n]) + {s[n]};
      assert s[n] !in Members(s[..n]);
    }
  }

  // ---- reordering by an index vector, in place ----

  /** Where a chain of recorded moves starting at `i` ends; the chain is followed only while it goes up. */
  function Chase(moved: map<nat, nat>, n: nat, i: nat): (p: nat)
    decreases n - i
  {
    if i in moved && i < moved[i] < n then Chase(moved, n, moved[i]) else i
  }

  /** Every move on the chain from `i` goes up, so following it terminates outside the table. */
  predicate Climbs(moved: map<nat, nat>, n: nat, i: nat)
    decreases n - i
  {
    i < n && (i in moved ==> i < moved[i] < n && Climbs(moved, n, moved[i]))
  }

  lemma {:induction false} ChaseEnds(moved: map<nat, nat>, n: nat, i: nat)
    requires Climbs(moved, n, i)
    ensures i <= Chase(moved, n, i) < n && Chase(moved, n, i) !in moved
    decreases n - i
  {
    if i in moved {
      ChaseEnds(moved, n, moved[i]);
    }
  }

  /** Recording the move `k -> p` extends exactly the chains that ended at `k`. */
  lemma {:induction false} ChaseAfterMove(moved: map<nat, nat>, n: nat, k: nat, p: nat, i: nat)
    requires Climbs(moved, n, i) && k !in moved && p !in moved && p < n
    requires Chase(moved, n, i) == k ==> k < p
    ensures Climbs(moved[k := p], n, i)
    ensures Chase(moved[k := p], n, i) == if Chase(moved, n, i) == k then p else Chase(moved, n, i)
    decreases n - i
  {
    if i in moved {
      ChaseAfterMove(moved, n, k, p, moved[i]);
    }
  }

  predicate IsPermutation(idx: seq<nat>, n: nat) {
    |idx| == n && Distinct(idx) && forall i :: 0 <= i < n ==> idx[i] < n
  }

  /** Elements of `idx` not placed in the first `k` rounds. */
  predicate Unplaced(idx: seq<nat>, k: nat, s: nat)
    requires k <= |idx|
  {
    s < |idx| && s !in idx[..k]
  }

  /** Before round `k` the unplaced element `s` is found at the end of its chain. */
  ghost predicate TracksOne<T>(v: seq<T>, v0: seq<T>, idx: seq<nat>, moved: map<nat, nat>, k: nat, s: nat)
    requires |v| == |v0| == |idx| && s < |v|
  {
    && Climbs(moved, |v|, s)
    && k <= Chase(moved, |v|, s) < |v|
    && v[Chase(moved, |v|, s)] == v0[s]
  }

  /** Before round `k` every unplaced element is tracked, and no two share a place. */
  ghost predicate Tracked<T>(v: seq<T>, v0: seq<T>, idx: seq<nat>, moved: map<nat, nat>, k: nat)
    requires |v| == |v0| == |idx| && k <= |idx|
  {
    && (forall i :: i in moved ==> i < k)
    && (forall s: nat :: Unplaced(idx, k, s) ==> TracksOne(v, v0, idx, moved, k, s))
    && (forall s: nat, t: nat :: Unplaced(idx, k, s) && Unplaced(idx, k, t) && s != t ==>
          Chase(moved, |v|, s) != Chase(moved, |v|, t))
  }

  function Swapped<T>(v: seq<T>, i: nat, j: nat): seq<T>
    requires i < |v| && j < |v|
  {
    v[i := v[j]][j := v[i]]
  }

  lemma UnplacedNext(idx: seq<nat>, k: nat, s: nat)
    requires IsPermutation(idx, |idx|) && k < |idx|
    ensures Unplaced(idx, k, idx[k])
    ensures Unplaced(idx, k + 1, s) <==> Unplaced(idx, k, s) && s != idx[k]
  {
  }

  lemma TracksOneAfterSwap<T>(v: seq<T>, v0: seq<T>, idx: seq<nat>, moved: map<nat, nat>, k: nat, p: nat, s: nat)
    requires IsPermutation(idx, |v|) && |v0| == |v| && k < |v|
    requires Tracked(v, v0, idx, moved, k) && p == Chase(moved, |v|, idx[k]) && p < |v|
    requires Unplaced(idx, k + 1, s)
    ensures TracksOne(Swapped(v, k, p), v0, idx, moved[k := p], k + 1, s)
    ensures Chase(moved[k := p], |v|, s) == if Chase(moved, |v|, s) == k then p else Chase(moved, |v|, s)
    ensures Chase(moved, |v|, s) != p
  {
    UnplacedNext(idx, k, s);
    assert TracksOne(v, v0, idx, moved, k, s) && TracksOne(v, v0, idx, moved, k, idx[k]);
    ChaseEnds(moved, |v|, idx[k]);
    ChaseAfterMove(moved, |v|, k, p, s);
  }

  /** A round that swaps keeps the tracking and puts the right element at `k`. */
  lemma TrackedAfterSwap<T>(v: seq<T>, v0: seq<T>, idx: seq<nat>, moved: map<nat, nat>, k: nat, p: nat)
    requires IsPermutation(idx, |v|) && |v0| == |v| && k < |v|
    requires Tracked(v, v0, idx, moved, k) && p == Chase(moved, |v|, idx[k]) && p < |v|
    ensures Tracked(Swapped(v, k, p), v0, idx, moved[k := p], k + 1)
    ensures v[p] == v0[idx[k]] && k <= p
  {
    UnplacedNext(idx, k, idx[k]);
    assert TracksOne(v, v0, idx, moved, k, idx[k]);
    var next := k + 1;
    forall s: nat | Unplaced(idx, next, s)
      ensures TracksOne(Swapped(v, k, p), v0, idx, moved[k := p], next, s)
    {
      TracksOneAfterSwap(v, v0, idx, moved, k, p, s);
    }
    forall s: nat, t: nat | Unplaced(idx, next, s) && Unplaced(idx, next, t) && s != t
      ensures Chase(moved[k := p], |v|, s) != Chase(moved[k := p], |v|, t)
    {
      TracksOneAfterSwap(v, v0, idx, moved, k, p, s);
      TracksOneAfterSwap(v, v0, idx, moved, k, p, t);
      UnplacedNext(idx, k, s);
      UnplacedNext(idx, k, t);
    }
  }

  lemma TrackedAtFirst<T>(v: seq<T>, idx: seq<nat>)
    requires IsPermutation(idx, |v|)
    ensures Tracked(v, v, idx, map[], 0)
  {
  }

  /** The chain of the next element can be followed. */
  lemma TrackedNext<T>(v: seq<T>, v0: seq<T>, idx: seq<nat>, moved: map<nat, nat>, k: nat)
    requires IsPermutation(idx, |v|) && |v0| == |v| && k < |v| && Tracked(v, v0, idx, moved, k)
    ensures idx[k] < |v| && Climbs(moved, |v|, idx[k])
  {
    UnplacedNext(idx, k, idx[k]);
    assert TracksOne(v, v0, idx, moved, k, idx[k]);
  }

  lemma SwappedAt<T>(v: seq<T>, i: nat, j: nat)
    requires i <= j < |v|
    ensures Swapped(v, i, j)[i] == v[j] && |Swapped(v, i, j)| == |v|
    ensures forall k :: 0 <= k < i ==> Swapped(v, i, j)[k] == v[k]
  {
  }

  /** A round whose element was never moved and is already in place keeps the tracking. */
  lemma TrackedAfterSkip<T>(v: seq<T>, v0: seq<T>, idx: seq<nat>, moved: map<nat, nat>, k: nat)
    requires IsPermutation(idx, |v|) && |v0| == |v| && k < |v|
    requires Tracked(v, v0, idx, moved, k) && idx[k] == k
    ensures Tracked(v, v0, idx, moved, k + 1) && v[k] == v0[k]
  {
    UnplacedNext(idx, k, k);
    assert TracksOne(v, v0, idx, moved, k, k) && Chase(moved, |v|, k) == k;
    var next := k + 1;
    forall s: nat | Unplaced(idx, next, s)
      ensures Unplaced(idx, k, s) && TracksOne(v, v0, idx, moved, next, s)
    {
      UnplacedNext(idx, k, s);
      assert TracksOne(v, v0, idx, moved, k, s);
    }
  }

  method FollowMoves(moved: map<nat, nat>, n: nat, i: nat) returns (p: nat)
    requires Climbs(moved, n, i)
    ensures p == Chase(moved, n, i)
  {
    p := i;
    while p in moved
      invariant Climbs(moved, n, p) && Chase(moved, n, p) == Chase(moved, n, i)
      decreases n - p
    {
      p := moved[p];
    }
  }

  method Swap<T>(v: array<T>, i: nat, j: nat)
    requires i < v.Length && j < v.Length
    modifies v
    ensures v[..] == Swapped(old(v[..]), i, j)
  {
    v[i], v[j] := v[j], v[i];
  }

  /** The first `k` places have what belongs there. */
  ghost predicate Placed<T>(v: seq<T>, v0: seq<T>, idx: seq<nat>, k: nat)
    requires |v| == |v0| == |idx| && k <= |idx|
  {
    forall i :: 0 <= i < k ==> idx[i] < |v0| && v[i] == v0[idx[i]]
  }

  lemma PlacedNext<T>(v: seq<T>, w: seq<T>, v0: seq<T>, idx: seq<nat>, k: nat)
    requires |v| == |w| == |v0| == |idx| && k < |idx| && Placed(v, v0, idx, k)
    requires idx[k] < |v0| && w[k] == v0[idx[k]] && forall i :: 0 <= i < k ==> w[i] == v[i]
    ensures Placed(w, v0, idx, k + 1)
  {
  }

  /** Puts `v[idx[i]]` at position `i`, for every `i`, by swaps. */
  method ReorderByIdx<T>(v: array<T>, idx: seq<nat>)
    requires IsPermutation(idx, v.Length)
    modifies v
    ensures forall i :: 0 <= i < v.Length ==> v[i] == old(v[idx[i]])
  {
    hide *;
    var moved: map<nat, nat> := map[];
    ghost var v0 := v[..];
    PermutationLength(idx, v.Length);
    TrackedAtFirst(v0, idx);
    NonePlaced(v0, idx);
    for k := 0 to v.Length
      invariant |idx| == v.Length && Tracked(v[..], v0, idx, moved, k)
      invariant Placed(v[..], v0, idx, k)
    {
      ghost var now := v[..];
      TrackedNext(now, v0, idx, moved, k);
      if k == idx[k] {
        TrackedAfterSkip(now, v0, idx, moved, k);
        PlacedNext(now, now, v0, idx, k);
        continue;
      }
      var p := FollowMoves(moved, v.Length, idx[k]);
      ChaseEnds(moved, v.Length, idx[k]);
      TrackedAfterSwap(now, v0, idx, moved, k, p);
      SwappedAt(now, k, p);
      PlacedNext(now, Swapped(now, k, p), v0, idx, k);
      Swap(v, k, p);
      moved := moved[k := p];
    }
    AllPlaced(v[..], v0, idx);
  }

  lemma PermutationLength(idx: seq<nat>, n: nat)
    requires IsPermutation(idx, n)
    ensures |idx| == n
  {
  }

  lemma NonePlaced<T>(v0: seq<T>, idx: seq<nat>)
    requires |v0| == |idx|
    ensures Placed(v0, v0, idx, 0)
  {
  }

  lemma AllPlaced<T>(v: seq<T>, v0: seq<T>, idx: seq<nat>)
    requires |v| == |v0| == |idx| && Placed(v, v0, idx, |idx|)
    ensures forall i :: 0 <= i < |v| ==> idx[i] < |v0| && v[i] == v0[idx[i]]
  {
  }
}
