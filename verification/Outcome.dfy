/**
 What the invariant of the search says once the root module is the only one left in progress:
 the result of dependency resolution, for every package.
 */
module Outcome {
  import opened Digraph
  import opened ModuleGraphs
  import opened Wrappers
  import opened Imports
  import opened Resolution

  /** The root module has been searched, and `errs` were collected for it. */
  ghost predicate RootSearched(k: Package, s: State, errs: set<Path>) {
    Inv(k, s, [Frame(k.root, errs)]) && Handled(s, [Frame(k.root, errs)], TargetsAll(k.main))
  }

  /** The search may start. */
  lemma InitiallyInv(k: Package)
    ensures Inv(k, State(map[], map[], map[]), [Frame(k.root, {})])
  {
    var s, fr := State(map[], map[], map[]), [Frame(k.root, {})];
    forall p: Path
      ensures !Reaches(s.g, p, p)
    {
      if Reaches(s.g, p, p) {
        var q := FirstStep(s.g, p, p);
      }
    }
  }

  /** No cycle error survives at the root: it could only name a module above the root. */
  lemma NoErrorAtRoot(k: Package, s: State, errs: set<Path>)
    requires RootSearched(k, s, errs)
    ensures errs == {}
  {
  }

  /** The modules that take part: the root and every finished module. */
  function Members(k: Package, s: State): set<Path> {
    Done(s) + {k.root}
  }

  /**
   Every import in every member, at any depth, is a dependency, a self-import,
   or leads to a module the importer is inlined into.
   */
  lemma EveryImportSettled(k: Package, s: State, m: Path, x: Path)
    requires RootSearched(k, s, {}) && m in Members(k, s) && Occurs(k.Source(m), x)
    ensures Settled(s, m, x)
    ensures x in Members(k, s)
  {
    TargetsIffOccurs(k.Source(m), x);
    var fr := [Frame(k.root, {})];
    assert Open(fr) == {k.root} by {
      OpenPush([], fr[0]);
      assert [] + fr == fr;
    }
    if m == k.root {
      assert Settled(s, m, x);
    } else {
      assert Settled(s, m, x) || Pending(s, fr, m, x);
    }
    assert Deps(s.g, m) <= Members(k, s);
    if InlinedInto(s.inlines, m, x) {
      var q := LastStep(InlineGraph(s.inlines), m, x);
    }
  }

  /** Nothing that is imported anywhere in a member is left out. */
  ghost predicate AllSettled(k: Package, s: State) {
    forall m, x :: m in Members(k, s) && Occurs(k.Source(m), x) ==> Settled(s, m, x) && x in Members(k, s)
  }

  lemma EveryImportOfAllSettled(k: Package, s: State)
    requires RootSearched(k, s, {})
    ensures AllSettled(k, s)
  {
    hide RootSearched, Settled, Members, Occurs;
    forall m, x | m in Members(k, s) && Occurs(k.Source(m), x)
      ensures Settled(s, m, x) && x in Members(k, s)
    {
      EveryImportSettled(k, s, m, x);
    }
  }

  /** Resolution enters exactly the modules that the root imports, directly or not. */
  lemma FinishedIffImported(k: Package, s: State, p: Path)
    requires RootSearched(k, s, {})
    ensures p in Done(s) <==> p != k.root && Reaches(k.ImportGraph(), k.root, p)
  {
    var fr := [Frame(k.root, {})];
    if p in Done(s) {
      assert fr[0].path == k.root && fr[0].path !in Done(s);
      GraphInUniverse(k, s, fr);
      DependsImports(k, s, k.root, p);
    } else if p != k.root && Reaches(k.ImportGraph(), k.root, p) {
      forall m, x | m in Members(k, s) && x in Deps(k.ImportGraph(), m)
        ensures x in Members(k, s)
      {
        k.EdgeIffOccurs(m, x);
        EveryImportSettled(k, s, m, x);
      }
      ReachesStaysInside(k.ImportGraph(), Members(k, s), k.root, p);
    }
  }

  /** Without inlined modules every import other than a self-import is a dependency. */
  lemma {:induction false} ImportsAreDependencies(k: Package, s: State, w: seq<Path>)
    requires RootSearched(k, s, {}) && s.inlines == map[]
    requires Walk(k.ImportGraph(), w) && w[0] in Members(k, s) && w[0] != w[|w| - 1]
    ensures Reaches(s.g, w[0], w[|w| - 1])
    decreases |w|
  {
    var a, b, c := w[0], w[1], w[|w| - 1];
    assert w[0 + 1] in Deps(k.ImportGraph(), a);
    k.EdgeIffOccurs(a, b);
    EveryImportSettled(k, s, a, b);
    if InlinedInto(s.inlines, a, b) {
      var q := FirstStep(InlineGraph(s.inlines), a, b);
    }
    if a != b {
      EdgeReaches(s.g, a, b);
    }
    if b != c {
      assert Walk(k.ImportGraph(), w[1..]) by {
        forall i | 0 <= i < |w| - 2
          ensures w[1..][i + 1] in Deps(k.ImportGraph(), w[1..][i])
        {
          assert w[i + 1 + 1] in Deps(k.ImportGraph(), w[i + 1]);
        }
      }
      ImportsAreDependencies(k, s, w[1..]);
      if a != b {
        ReachesTransitive(s.g, a, b, c);
      }
    }
  }

  /** Two different modules that import each other, directly or not. */
  ghost predicate ImportEachOther(k: Package, p: Path, q: Path) {
    p != q && Reaches(k.ImportGraph(), p, q) && Reaches(k.ImportGraph(), q, p)
  }

  /** A module is inlined only into one it forms an import cycle with. */
  lemma InlinedOnCycle(k: Package, s: State, p: Path)
    requires RootSearched(k, s, {}) && p in s.inlines
    ensures s.inlines[p] in Members(k, s) && ImportEachOther(k, p, s.inlines[p])
  {
    var fr := [Frame(k.root, {})];
    OpenPush([], fr[0]);
    assert [] + fr == fr;
    GraphInUniverse(k, s, fr);
    EdgeReaches(s.g, s.inlines[p], p);
    DependsImports(k, s, s.inlines[p], p);
  }

  /** Something is inlined exactly when two members import each other. */
  lemma InlinesIffCycle(k: Package, s: State)
    requires RootSearched(k, s, {})
    ensures s.inlines != map[] <==>
              exists p, q :: p in Members(k, s) && q in Members(k, s) && ImportEachOther(k, p, q)
  {
    if s.inlines != map[] {
      var p :| p in s.inlines;
      InlinedOnCycle(k, s, p);
    } else if p, q :| p in Members(k, s) && q in Members(k, s) && ImportEachOther(k, p, q) {
      var w :| WalkFromTo(k.ImportGraph(), w, p, q);
      var v :| WalkFromTo(k.ImportGraph(), v, q, p);
      ImportsAreDependencies(k, s, w);
      ImportsAreDependencies(k, s, v);
      ReachesTransitive(s.g, p, q, p);
    }
  }

  /** Inlining goes against the dependencies. */
  lemma {:induction false} InlinedIntoReversed(s: State, w: seq<Path>)
    requires forall p :: p in s.inlines ==> p in Deps(s.g, s.inlines[p])
    requires Walk(InlineGraph(s.inlines), w)
    ensures Reaches(s.g, w[|w| - 1], w[0])
    decreases |w|
  {
    var n := |w| - 1;
    assert w[0 + 1] in Deps(InlineGraph(s.inlines), w[0]);
    EdgeReaches(s.g, w[1], w[0]);
    if n > 1 {
      assert Walk(InlineGraph(s.inlines), w[1..]) by {
        forall i | 0 <= i < n - 1
          ensures w[1..][i + 1] in Deps(InlineGraph(s.inlines), w[1..][i])
        {
          assert w[i + 1 + 1] in Deps(InlineGraph(s.inlines), w[i + 1]);
        }
      }
      InlinedIntoReversed(s, w[1..]);
      ReachesTransitive(s.g, w[n], w[1], w[0]);
    }
  }

  /** A module that is built, with whatever is inlined into it. */
  predicate Built(k: Package, s: State, m: Path) {
    m == k.root || m in s.asts
  }

  lemma InliningAcyclic(s: State)
    requires Acyclic(s.g) && forall p :: p in s.inlines ==> p in Deps(s.g, s.inlines[p])
    ensures Acyclic(InlineGraph(s.inlines))
  {
    forall q: Path | Reaches(InlineGraph(s.inlines), q, q)
      ensures false
    {
      var w :| WalkFromTo(InlineGraph(s.inlines), w, q, q);
      InlinedIntoReversed(s, w);
    }
  }

  /** Following the inliners from `p` ends at a member that is not inlined itself. */
  lemma ChainEnds(inlines: map<Path, Path>, members: set<Path>, p: Path) returns (m: Path)
    requires Acyclic(InlineGraph(inlines)) && p in inlines
    requires forall q :: q in inlines ==> inlines[q] in members
    ensures m in members && m !in inlines && InlinedInto(inlines, p, m)
  {
    var ig := InlineGraph(inlines);
    var above := set q | q in members && Reaches(ig, p, q);
    EdgeReaches(ig, p, inlines[p]);
    assert inlines[p] in above;
    forall q, r | q in above && r in Deps(ig, q)
      ensures r in above
    {
      EdgeReaches(ig, q, r);
      ReachesTransitive(ig, p, q, r);
    }
    forall q | q in inlines
      ensures Deps(ig, q) != {}
    {
      assert inlines[q] in Deps(ig, q);
    }
    m := SourceExists(ig, above);
  }

  /** Every inlined module is part of a built module. */
  lemma HostExists(k: Package, s: State, p: Path) returns (m: Path)
    requires RootSearched(k, s, {}) && p in s.inlines
    ensures Built(k, s, m) && InlinedInto(s.inlines, p, m)
  {
    hide Shape;
    hide ErrsShape;
    hide ImportsShape;
    hide AstsShape;
    var fr := [Frame(k.root, {})];
    OpenPush([], fr[0]);
    assert [] + fr == fr;
    InliningAcyclic(s);
    m := ChainEnds(s.inlines, Members(k, s), p);
  }

  /** ... and of only one, so its code is analysed once. */
  lemma {:induction false} HostUnique(inlines: map<Path, Path>, w: seq<Path>, m: Path)
    requires Walk(InlineGraph(inlines), w) && w[|w| - 1] !in inlines
    requires InlinedInto(inlines, w[0], m) && m !in inlines
    ensures w[|w| - 1] == m
    decreases |w|
  {
    var ig, n := InlineGraph(inlines), |w| - 1;
    assert w[0 + 1] in Deps(ig, w[0]);
    var q := FirstStep(ig, w[0], m);
    assert q == w[1] == inlines[w[0]];
    if n > 1 {
      assert w[1 + 1] in Deps(ig, w[1]);
      assert Walk(ig, w[1..]) by {
        forall i | 0 <= i < n - 1
          ensures w[1..][i + 1] in Deps(ig, w[1..][i])
        {
          assert w[i + 1 + 1] in Deps(ig, w[i + 1]);
        }
      }
      HostUnique(inlines, w[1..], m);
    } else if q != m {
      var r := FirstStep(ig, q, m);
    }
  }

  lemma InlinedOnce(k: Package, s: State, p: Path, m1: Path, m2: Path)
    requires RootSearched(k, s, {})
    requires Built(k, s, m1) && InlinedInto(s.inlines, p, m1)
    requires Built(k, s, m2) && InlinedInto(s.inlines, p, m2)
    ensures m1 == m2
  {
    var fr := [Frame(k.root, {})];
    assert fr[0].path !in Done(s);
    var w :| WalkFromTo(InlineGraph(s.inlines), w, p, m1);
    HostUnique(s.inlines, w, m2);
  }
}
