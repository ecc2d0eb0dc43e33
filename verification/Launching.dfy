/**
 Launching the analyses of the resolved modules. A `Plan` is what resolution leaves;
 `Launch` is the state of the launcher: the graph of modules still to be handled, the modules still to be
 launched, the log of launches, the registered promises and the cache of analysed modules.
 */
module Launching {
  import opened Digraph
  import opened ModuleGraphs
  import opened Imports
  import opened Resolution
  import opened Outcome

  datatype Plan = Plan(g: Graph<Path>, asts: map<Path, seq<Expr>>, inlines: map<Path, Path>, root: Path)

  datatype Entry = Entry(path: Path, ast: seq<Expr>)

  datatype Launch = Launch(g: Graph<Path>, asts: map<Path, seq<Expr>>, promises: set<Path>, launched: seq<Entry>, cache: set<Path>)

  /** What the launcher relies on. */
  ghost predicate Sound(plan: Plan) {
    && Acyclic(plan.g) && Closed(plan.g)
    && plan.asts.Keys !! plan.inlines.Keys && plan.root !in plan.asts.Keys + plan.inlines.Keys
    && plan.asts.Keys + plan.inlines.Keys <= plan.g.Keys <= plan.asts.Keys + plan.inlines.Keys + {plan.root}
    && (forall p :: p in plan.asts.Keys + plan.inlines.Keys ==> Reaches(plan.g, plan.root, p))
    && (forall p :: p in plan.inlines ==> p in Deps(plan.g, plan.inlines[p]))
    && (forall m, p :: m in plan.asts && p in InlinedAll(plan.asts[m]) ==> InlinedInto(plan.inlines, p, m))
  }

  /** The modules already taken off the graph. */
  function Gone(plan: Plan, l: Launch): set<Path> {
    plan.g.Keys - l.g.Keys
  }

  predicate Launched(log: seq<Entry>, p: Path) {
    exists e :: e in log && e.path == p
  }

  /** A module is in the cache only after the analysis of a module that contains it was launched. */
  predicate Analysed(log: seq<Entry>, p: Path) {
    exists e :: e in log && (e.path == p || p in InlinedAll(e.ast))
  }

  /** The graph is the original one without the modules that are gone, which take their dependencies with them. */
  ghost predicate GraphLeft(plan: Plan, l: Launch) {
    && l.g.Keys <= plan.g.Keys
    && (forall p :: p in l.g ==> l.g[p] == plan.g[p] * l.g.Keys)
    && (forall p :: p in Gone(plan, l) ==> plan.g[p] <= Gone(plan, l))
  }

  /** A module is still to be launched exactly while it is in the graph; each is launched at most once. */
  ghost predicate LogShape(plan: Plan, l: Launch) {
    && (forall p :: p in l.asts <==> p in plan.asts && p in l.g)
    && (forall p :: p in l.asts ==> l.asts[p] == plan.asts[p])
    && (forall i, j :: 0 <= i < j < |l.launched| ==> l.launched[i].path != l.launched[j].path)
    && (forall e :: e in l.launched ==> e.path in plan.asts && e.ast == plan.asts[e.path])
    && (forall p :: Launched(l.launched, p) <==> p in plan.asts && p in Gone(plan, l))
  }

  /** Every launch comes after the launches of all modules it depends on, directly or through inlined modules. */
  ghost predicate DependenciesFirst(plan: Plan, l: Launch) {
    forall i, d :: 0 <= i < |l.launched| && d in plan.asts && Reaches(plan.g, l.launched[i].path, d) ==>
      exists j :: 0 <= j < i && l.launched[j].path == d
  }

  /** Modules that are gone have a promise, except the inlined ones still being handled. */
  ghost predicate PromisesShape(plan: Plan, l: Launch, busy: set<Path>) {
    && l.promises <= Gone(plan, l)
    && (forall p :: Launched(l.launched, p) ==> p in l.promises)
    && (forall p :: p in plan.inlines && p in Gone(plan, l) && p !in busy ==> p in l.promises)
    && busy <= Gone(plan, l)
    && (forall p :: p in l.cache ==> Analysed(l.launched, p))
  }

  ghost predicate LInv(plan: Plan, l: Launch, busy: set<Path>) {
    && Sound(plan)
    && GraphLeft(plan, l)
    && LogShape(plan, l)
    && DependenciesFirst(plan, l)
    && PromisesShape(plan, l, busy)
  }

  /** What resolution leaves is a sound plan. */
  lemma ResolvedIsSound(k: Package, s: State)
    requires RootSearched(k, s, {})
    ensures Sound(Plan(s.g, s.asts, s.inlines, k.root))
  {
  }

  lemma InitiallyLInv(plan: Plan)
    requires Sound(plan)
    ensures LInv(plan, Launch(plan.g, plan.asts, {}, [], {}), {})
  {
  }

  /** Nothing depends on the root. */
  lemma RootNotReached(plan: Plan, p: Path)
    requires Sound(plan)
    ensures !Reaches(plan.g, p, plan.root)
  {
    if Reaches(plan.g, p, plan.root) {
      var q := LastStep(plan.g, p, plan.root);
      EdgeReaches(plan.g, q, plan.root);
      if q != plan.root {
        ReachesTransitive(plan.g, plan.root, q, plan.root);
      }
    }
  }

  lemma LeftExtends(plan: Plan, l: Launch)
    requires GraphLeft(plan, l)
    ensures Extends(plan.g, l.g)
  {
  }

  lemma LeftAcyclic(plan: Plan, l: Launch)
    requires Acyclic(plan.g) && GraphLeft(plan, l)
    ensures Acyclic(l.g) && Closed(l.g)
  {
    LeftExtends(plan, l);
    forall p: Path | Reaches(l.g, p, p)
      ensures false
    {
      ReachesMonotone(l.g, plan.g, p, p);
    }
  }

  /** Everything a gone module depends on is gone. */
  lemma GoneReachesGone(plan: Plan, l: Launch, p: Path, d: Path)
    requires Closed(plan.g) && GraphLeft(plan, l)
    requires Deps(plan.g, p) <= Gone(plan, l) && Reaches(plan.g, p, d)
    ensures d in Gone(plan, l)
  {
    ReachesStaysInside(plan.g, Gone(plan, l), p, d);
  }

  // ---- the worklist ----

  /** An entry of the worklist can be handled when nothing it depends on is left in the graph. */
  predicate Handleable(g: Graph<Path>, p: Path) {
    p !in g || g[p] == {}
  }

  /** The worklist is closed: what an entry still depends on is in the list too. */
  ghost predicate ListClosed(g: Graph<Path>, list: seq<Path>) {
    forall p, d :: p in list && p in g && d in g[p] ==> d in list
  }

  /** The entries of a worklist are modules that resolution entered, and none is being handled further out. */
  ghost predicate ListReady(plan: Plan, l: Launch, busy: set<Path>, list: seq<Path>) {
    && ListClosed(l.g, list)
    && forall p :: p in list ==> p in plan.asts.Keys + plan.inlines.Keys && p !in busy
  }

  lemma InitialList(plan: Plan, l: Launch, busy: set<Path>, path: Path, list: seq<Path>)
    requires LInv(plan, l, busy) && forall p :: p in list <==> Reaches(l.g, path, p)
    ensures ListReady(plan, l, busy, list) == true
  {
    LeftAcyclic(plan, l);
    LeftExtends(plan, l);
    forall p | p in list
      ensures p in plan.asts.Keys + plan.inlines.Keys && p !in busy
    {
      var q := LastStep(l.g, path, p);
      RootNotReached(plan, path);
      ReachesMonotone(l.g, plan.g, path, p);
    }
    forall p, d | p in list && p in l.g && d in l.g[p]
      ensures d in list
    {
      EdgeReaches(l.g, p, d);
      ReachesTransitive(l.g, path, p, d);
    }
  }

  /** Some entry can always be handled, so the rotation makes progress. */
  lemma HandleableExists(plan: Plan, l: Launch, list: seq<Path>) returns (i: nat)
    requires Acyclic(plan.g) && GraphLeft(plan, l) && ListClosed(l.g, list) && list != []
    ensures i < |list| && Handleable(l.g, list[i])
  {
    LeftAcyclic(plan, l);
    var inGraph := set p | p in list && p in l.g;
    if inGraph == {} {
      i := 0;
      assert list[0] !in inGraph;
    } else {
      var m := SourceExists(l.g, inGraph);
      i :| 0 <= i < |list| && list[i] == m;
    }
  }

  /** How many rotations it takes until the last entry of the list can be handled. */
  ghost function Distance(g: Graph<Path>, list: seq<Path>): nat {
    if list == [] || Handleable(g, list[|list| - 1]) then 0 else 1 + Distance(g, list[..|list| - 1])
  }

  lemma {:induction false} DistanceRotated(g: Graph<Path>, p: Path, rest: seq<Path>)
    requires exists i :: 0 <= i < |rest| && Handleable(g, rest[i])
    ensures Distance(g, [p] + rest) == Distance(g, rest)
    decreases |rest|
  {
    var n := |rest| - 1;
    assert ([p] + rest)[|rest|] == rest[n];
    if !Handleable(g, rest[n]) {
      var i :| 0 <= i < |rest| && Handleable(g, rest[i]);
      assert rest[..n][i] == rest[i];
      assert ([p] + rest)[..|rest|] == [p] + rest[..n];
      DistanceRotated(g, p, rest[..n]);
    }
  }

  /** One rotation brings the next handleable entry one step closer. */
  lemma RotationCloser(g: Graph<Path>, list: seq<Path>, i: nat)
    requires i < |list| && Handleable(g, list[i]) && !Handleable(g, list[|list| - 1])
    ensures var n := |list| - 1; Distance(g, [list[n]] + list[..n]) < Distance(g, list)
  {
    var n := |list| - 1;
    assert list[..n][i] == list[i];
    DistanceRotated(g, list[n], list[..n]);
  }

  // ---- the steps ----

  /** Taking a module without remaining dependencies off the graph; an inlined one becomes busy. */
  lemma TakeGraph(plan: Plan, l: Launch, t: Launch, p: Path)
    requires GraphLeft(plan, l) && Closed(plan.g) && p in l.g && l.g[p] == {}
    requires t == l.(g := Without(l.g, p))
    ensures GraphLeft(plan, t) && Gone(plan, t) == Gone(plan, l) + {p}
    ensures plan.g[p] <= Gone(plan, l)
  {
    forall d | d in plan.g[p]
      ensures d !in l.g.Keys
    {
      assert d in plan.g[p] * l.g.Keys <==> d in l.g.Keys;
    }
    assert t.g.Keys == l.g.Keys - {p};
  }

  /** Before a module is taken, neither it nor anything that depends on it has been launched. */
  lemma NotYetAnalysed(plan: Plan, l: Launch, busy: set<Path>, p: Path)
    requires LInv(plan, l, busy) && p in l.g && p in plan.asts.Keys + plan.inlines.Keys
    ensures p !in l.promises && p !in l.cache && !Analysed(l.launched, p)
  {
    if Analysed(l.launched, p) {
      var e :| e in l.launched && (e.path == p || p in InlinedAll(e.ast));
      assert Launched(l.launched, e.path);
      if e.path != p {
        assert InlinedInto(plan.inlines, p, e.path);
        var w :| WalkFromTo(InlineGraph(plan.inlines), w, p, e.path);
        InlinedIntoReversed(State(plan.g, plan.asts, plan.inlines), w);
        GoneReachesGone(plan, l, e.path, p);
      }
    }
  }

  ghost predicate Takes(l: Launch, t: Launch, p: Path) {
    && p in l.g && l.g[p] == {} && p in l.asts
    && t == l.(g := Without(l.g, p), asts := l.asts - {p}, promises := l.promises + {p},
               launched := l.launched + [Entry(p, l.asts[p])])
  }

  lemma TakeLog(plan: Plan, l: Launch, t: Launch, p: Path)
    requires LogShape(plan, l) && Takes(l, t, p) && Gone(plan, t) == Gone(plan, l) + {p}
    ensures LogShape(plan, t)
    ensures forall q :: Launched(t.launched, q) <==> Launched(l.launched, q) || q == p
    ensures forall q :: Analysed(l.launched, q) ==> Analysed(t.launched, q)
  {
    var e := Entry(p, l.asts[p]);
    assert !Launched(l.launched, p);
    assert forall f :: f in t.launched <==> f in l.launched || f == e;
    assert Launched(t.launched, p) by {
      assert e in t.launched;
    }
    forall i | 0 <= i < |l.launched|
      ensures l.launched[i].path != p
    {
      assert l.launched[i] in l.launched;
    }
  }

  lemma TakeOrder(plan: Plan, l: Launch, t: Launch, p: Path)
    requires Closed(plan.g) && GraphLeft(plan, l) && LogShape(plan, l) && DependenciesFirst(plan, l)
    requires Takes(l, t, p) && plan.g[p] <= Gone(plan, l) && p in plan.g
    ensures DependenciesFirst(plan, t)
  {
    hide Closed, GraphLeft, Reaches, Analysed, Launched;
    var n := |l.launched|;
    forall i, d | 0 <= i <= n && d in plan.asts && Reaches(plan.g, t.launched[i].path, d)
      ensures exists j :: 0 <= j < i && t.launched[j].path == d
    {
      if i < n {
        assert t.launched[i] == l.launched[i];
        var j :| 0 <= j < i && l.launched[j].path == d;
        assert t.launched[j].path == d;
      } else {
        GoneReachesGone(plan, l, p, d);
        var j := LaunchedAt(l.launched, d);
        assert t.launched[j].path == d;
      }
    }
  }

  lemma LaunchedAt(log: seq<Entry>, p: Path) returns (j: nat)
    requires Launched(log, p)
    ensures j < |log| && log[j].path == p
  {
    var e :| e in log && e.path == p;
    j :| 0 <= j < |log| && log[j] == e;
  }

  lemma GraphLeftByGraph(plan: Plan, l: Launch, t: Launch)
    requires GraphLeft(plan, l) && t.g == l.g
    ensures GraphLeft(plan, t) && Gone(plan, t) == Gone(plan, l)
  {
  }

  lemma TakePromises(plan: Plan, l: Launch, t: Launch, busy: set<Path>, p: Path)
    requires PromisesShape(plan, l, busy) && LogShape(plan, l) && Takes(l, t, p) && p in plan.g
    requires plan.asts.Keys !! plan.inlines.Keys
    requires Gone(plan, t) == Gone(plan, l) + {p}
    ensures PromisesShape(plan, t, busy)
  {
  }

  /** Launching a module that is built on its own. */
  lemma TakeAst(plan: Plan, l: Launch, t: Launch, busy: set<Path>, p: Path)
    requires LInv(plan, l, busy) && Takes(l, t, p)
    ensures LInv(plan, t, busy) == true
  {
    hide DependenciesFirst;
    hide GraphLeft;
    hide Reaches;
    hide PromisesShape;
    TakeGraph(plan, l, l.(g := t.g), p);
    GraphLeftByGraph(plan, l.(g := t.g), t);
    TakePromises(plan, l, t, busy, p);
    TakeLog(plan, l, t, p);
    TakeOrder(plan, l, t, p);
  }

  /** Taking an inlined module: until its inliner's dependencies are handled it has no promise. */
  lemma TakeInlined(plan: Plan, l: Launch, t: Launch, busy: set<Path>, p: Path)
    requires LInv(plan, l, busy) && p in l.g && l.g[p] == {} && p in plan.inlines
    requires t == l.(g := Without(l.g, p))
    ensures LInv(plan, t, busy + {p}) == true
    ensures p !in t.promises && p !in t.cache && !Analysed(t.launched, p)
  {
    hide Reaches;
    hide GraphLeft;
    hide DependenciesFirst;
    NotYetAnalysed(plan, l, busy, p);
    TakeGraph(plan, l, t, p);
    DependenciesFirstByLog(plan, l, t);
    TakeInlinedLog(plan, l, t, p);
    TakeInlinedPromises(plan, l, t, busy, p);
  }

  lemma TakeInlinedLog(plan: Plan, l: Launch, t: Launch, p: Path)
    requires LogShape(plan, l) && p in l.g && p !in plan.asts && t == l.(g := Without(l.g, p))
    requires Gone(plan, t) == Gone(plan, l) + {p}
    ensures LogShape(plan, t)
  {
  }

  lemma TakeInlinedPromises(plan: Plan, l: Launch, t: Launch, busy: set<Path>, p: Path)
    requires PromisesShape(plan, l, busy) && t == l.(g := t.g) && Gone(plan, t) == Gone(plan, l) + {p}
    ensures PromisesShape(plan, t, busy + {p})
    ensures forall q :: Analysed(t.launched, q) <==> Analysed(l.launched, q)
  {
  }

  /** Something was analysed meanwhile. */
  lemma CacheGrows(plan: Plan, l: Launch, t: Launch, busy: set<Path>)
    requires LInv(plan, l, busy)
    requires t == l.(cache := t.cache) && forall p :: p in t.cache ==> Analysed(l.launched, p)
    ensures LInv(plan, t, busy) == true
  {
    hide DependenciesFirst;
    hide Reaches;
    assert GraphLeft(plan, t) && LogShape(plan, t);
    DependenciesFirstByLog(plan, l, t);
  }

  lemma DependenciesFirstByLog(plan: Plan, l: Launch, t: Launch)
    requires DependenciesFirst(plan, l) && t.launched == l.launched
    ensures DependenciesFirst(plan, t)
  {
  }

  /** An inlined module gets its promise and is no longer busy. */
  lemma Joined(plan: Plan, l: Launch, t: Launch, busy: set<Path>, p: Path)
    requires LInv(plan, l, busy + {p}) && p in Gone(plan, l) && p !in busy
    requires t == l.(promises := l.promises + {p})
    ensures LInv(plan, t, busy) == true
  {
    hide DependenciesFirst;
    hide GraphLeft;
    hide LogShape;
    hide Reaches;
    SameLeft(plan, l, t);
    DependenciesFirstByLog(plan, l, t);
    JoinedPromises(plan, l, t, busy, p);
  }

  /** A module that has its promise already need not be counted as busy. */
  lemma JoinedAlready(plan: Plan, l: Launch, busy: set<Path>, p: Path)
    requires LInv(plan, l, busy + {p}) && p in l.promises
    ensures LInv(plan, l, busy) == true
  {
  }

  /** A module off the graph that is not busy was launched or has been joined. */
  lemma GoneHasPromise(plan: Plan, l: Launch, busy: set<Path>, p: Path)
    requires LInv(plan, l, busy) && p !in l.g && p !in busy && p in plan.asts.Keys + plan.inlines.Keys
    ensures p in l.promises && p !in l.asts && LInv(plan, l, busy + {p}) == true
  {
  }

  lemma SameLeft(plan: Plan, l: Launch, t: Launch)
    requires GraphLeft(plan, l) && LogShape(plan, l)
    requires t.g == l.g && t.asts == l.asts && t.launched == l.launched
    ensures GraphLeft(plan, t) && LogShape(plan, t) && Gone(plan, t) == Gone(plan, l)
  {
  }

  lemma JoinedPromises(plan: Plan, l: Launch, t: Launch, busy: set<Path>, p: Path)
    requires PromisesShape(plan, l, busy + {p}) && p in Gone(plan, l)
    requires t == l.(promises := l.promises + {p})
    ensures PromisesShape(plan, t, busy)
  {
  }

  /** When all the root depends on is gone, every module that is built has been launched, dependencies first. */
  lemma EverythingLaunched(plan: Plan, l: Launch)
    requires LInv(plan, l, {})
    requires forall p :: Reaches(plan.g, plan.root, p) ==> p !in l.g
    ensures l.asts == map[]
    ensures forall p :: Launched(l.launched, p) <==> p in plan.asts
    ensures LogShape(plan, l) && DependenciesFirst(plan, l)
    ensures forall p :: Reaches(plan.g, plan.root, p) ==> p in l.promises
  {
    hide DependenciesFirst;
    forall p | Reaches(plan.g, plan.root, p)
      ensures p in plan.g && p in Gone(plan, l) && p in l.promises
    {
      RootNotReached(plan, plan.root);
      var q := LastStep(plan.g, plan.root, p);
    }
  }

  // ---- facts the launcher calls on ----

  lemma ReadyHandleable(plan: Plan, l: Launch, busy: set<Path>, list: seq<Path>) returns (i: nat)
    requires LInv(plan, l, busy) && ListReady(plan, l, busy, list) && list != []
    ensures i < |list| && Handleable(l.g, list[i])
  {
    i := HandleableExists(plan, l, list);
  }

  lemma ReadyRotated(plan: Plan, l: Launch, busy: set<Path>, rest: seq<Path>, p: Path)
    requires ListReady(plan, l, busy, rest + [p])
    ensures ListReady(plan, l, busy, [p] + rest) == true
  {
    assert forall q :: q in [p] + rest <==> q in rest + [p];
  }

  /** Handling entries keeps the worklist closed, since the graph only loses nodes. */
  lemma ListStaysClosed(plan: Plan, l: Launch, t: Launch, list: seq<Path>, p: Path)
    requires GraphLeft(plan, l) && GraphLeft(plan, t) && ListClosed(l.g, list + [p])
    requires t.g.Keys <= l.g.Keys - {p}
    ensures ListClosed(t.g, list)
  {
    forall q, d | q in list && q in t.g && d in t.g[q]
      ensures d in list
    {
      assert q in list + [p] && d in l.g[q];
      assert d in list + [p];
    }
  }

  lemma StillReady(plan: Plan, l: Launch, t: Launch, busy: set<Path>, rest: seq<Path>, p: Path)
    requires LInv(plan, l, busy) && LInv(plan, t, busy) && ListReady(plan, l, busy, rest + [p])
    requires t.g.Keys <= l.g.Keys - {p}
    ensures ListReady(plan, t, busy, rest) == true
  {
    hide DependenciesFirst, LogShape, PromisesShape, GraphLeft, ListClosed;
    ListStaysClosed(plan, l, t, rest, p);
    assert forall q :: q in rest ==> q in rest + [p];
  }

  lemma KeysShrink(a: set<Path>, b: set<Path>)
    requires a <= b
    ensures |a| <= |b| && (a != b ==> |a| < |b|)
  {
    assert b == a + (b - a);
    assert |b| == |a| + |b - a|;
    if a != b {
      assert b - a != {};
    }
  }

  lemma ObservedMore(plan: Plan, l: Launch, t: Launch, busy: set<Path>)
    requires LInv(plan, l, busy) && t == l.(cache := t.cache)
    requires forall p :: p in t.cache ==> p in l.cache || Analysed(l.launched, p)
    ensures LInv(plan, t, busy) == true
  {
    CacheGrows(plan, l, t, busy);
  }

  lemma HandledIsNew(plan: Plan, l: Launch, busy: set<Path>, p: Path)
    requires LInv(plan, l, busy) && p in plan.asts.Keys + plan.inlines.Keys && (p in l.asts || p in l.g)
    ensures p in l.g && p !in l.promises && p !in l.cache
    ensures p in l.asts <==> p !in plan.inlines
  {
    hide DependenciesFirst;
    hide GraphLeft;
    hide PromisesShape;
    NotYetAnalysed(plan, l, busy, p);
  }

  lemma BusyIsGone(plan: Plan, l: Launch, busy: set<Path>, p: Path)
    requires LInv(plan, l, busy + {p})
    ensures p in Gone(plan, l)
  {
  }

  lemma LastEntry(plan: Plan, l: Launch, busy: set<Path>, list: seq<Path>)
    requires ListReady(plan, l, busy, list) && list != []
    ensures list[|list| - 1] in plan.asts.Keys + plan.inlines.Keys && list[|list| - 1] !in busy
  {
  }

  lemma WithoutNothing(g: Graph<Path>, p: Path)
    requires Closed(g) && p !in g
    ensures Without(g, p) == g
  {
    forall q | q in g
      ensures g[q] - {p} == g[q]
    {
      assert p !in g[q];
    }
  }

  /** An entry that a nested call has taken off the graph already changes nothing. */
  lemma StaleEntry(plan: Plan, l: Launch, busy: set<Path>, p: Path)
    requires LInv(plan, l, busy) && p !in l.g && p !in busy && p in plan.asts.Keys + plan.inlines.Keys
    ensures Without(l.g, p) == l.g && p in l.promises && p !in l.asts && LInv(plan, l, busy + {p}) == true
  {
    hide GraphLeft;
    hide LogShape;
    hide DependenciesFirst;
    hide PromisesShape;
    LeftAcyclic(plan, l);
    WithoutNothing(l.g, p);
    GoneHasPromise(plan, l, busy, p);
  }
}
