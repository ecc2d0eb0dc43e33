/**
 What dependency resolution keeps true while it searches the imports depth-first.
 `State` is the part of the package builder it changes; `frames` are the modules whose imports are
 being searched, outermost first, each with the cycle errors collected for it so far.
 */
module Resolution {
  import opened Digraph
  import opened ModuleGraphs
  import opened Wrappers
  import opened Imports

  datatype State = State(g: Graph<Path>, asts: map<Path, seq<Expr>>, inlines: map<Path, Path>)

  datatype Frame = Frame(path: Path, errs: set<Path>)

  /** The modules whose search has finished. */
  function Done(s: State): set<Path> {
    s.asts.Keys + s.inlines.Keys
  }

  /** The modules whose search is in progress. */
  function Open(fr: seq<Frame>): set<Path> {
    set f | f in fr :: f.path
  }

  function Top(fr: seq<Frame>): Frame
    requires fr != []
  {
    fr[|fr| - 1]
  }

  function WithErrs(fr: seq<Frame>, errs: set<Path>): seq<Frame>
    requires fr != []
  {
    fr[|fr| - 1 := Frame(Top(fr).path, Top(fr).errs + errs)]
  }

  function InlineGraph(inlines: map<Path, Path>): Graph<Path> {
    map p | p in inlines :: {inlines[p]}
  }

  /** Following the inliners from `p` leads to `m`: the code of `p` ends up inside `m`. */
  ghost predicate InlinedInto(inlines: map<Path, Path>, p: Path, m: Path) {
    Reaches(InlineGraph(inlines), p, m)
  }

  // ---- the invariant, part by part ----

  ghost predicate Shape(k: Package, s: State, fr: seq<Frame>) {
    && fr != [] && fr[0].path == k.root
    && (forall i, j :: 0 <= i < j < |fr| ==> fr[i].path != fr[j].path)
    && s.asts.Keys !! s.inlines.Keys
    && (forall i :: 0 <= i < |fr| ==> fr[i].path !in Done(s) && fr[i].path in k.Universe())
    && Done(s) <= k.Universe()
  }

  /** Modules in progress form a path; a finished module depends on finished modules only. */
  ghost predicate GraphShape(k: Package, s: State, fr: seq<Frame>) {
    && Acyclic(s.g) && Closed(s.g)
    && Done(s) <= s.g.Keys <= Done(s) + Open(fr)
    && (forall p :: p in Done(s) ==> Deps(s.g, p) <= Done(s))
    && (forall i :: 0 <= i < |fr| - 1 ==> fr[i + 1].path in Deps(s.g, fr[i].path))
    && (forall i :: 0 <= i < |fr| - 1 ==> Deps(s.g, fr[i].path) <= Done(s) + {fr[i + 1].path})
    && (fr != [] ==> Deps(s.g, Top(fr).path) <= Done(s))
  }

  /** Only imports become edges, and every finished module is reached from the root. */
  ghost predicate GraphOrigin(k: Package, s: State) {
    && (forall p :: p in s.g ==> s.g[p] <= TargetsAll(k.Source(p)))
    && (forall p :: p in Done(s) ==> Reaches(s.g, k.root, p))
  }

  /** An inliner imports what it inlines, and is imported by it in turn. */
  ghost predicate InlinesShape(k: Package, s: State, fr: seq<Frame>) {
    && (forall p :: p in s.inlines ==> s.inlines[p] in Done(s) + Open(fr) && p in Deps(s.g, s.inlines[p]))
    && (forall p :: p in s.inlines ==> Reaches(k.ImportGraph(), p, s.inlines[p]))
  }

  /** Cycle errors name modules in progress strictly above the frame, which its module imports in some way. */
  ghost predicate ErrsShape(k: Package, fr: seq<Frame>) {
    && (forall i :: 0 <= i < |fr| ==> fr[i].errs <= Open(fr[..i]))
    && (forall i, x :: 0 <= i < |fr| && x in fr[i].errs ==> Reaches(k.ImportGraph(), fr[i].path, x))
  }

  /** An import is settled when it is an edge, or the importer itself, or something the importer is inlined into. */
  ghost predicate Settled(s: State, m: Path, x: Path) {
    x == m || x in Deps(s.g, m) || InlinedInto(s.inlines, m, x)
  }

  /** Frame `i` holds the importer `m` and still has to report the refused import of `x`. */
  ghost predicate PendingAt(s: State, fr: seq<Frame>, i: nat, m: Path, x: Path)
    requires i < |fr|
  {
    InlinedInto(s.inlines, m, fr[i].path) && x in fr[i].errs
  }

  ghost predicate Pending(s: State, fr: seq<Frame>, m: Path, x: Path) {
    exists i :: 0 <= i < |fr| && PendingAt(s, fr, i, m, x)
  }

  ghost predicate ImportsShape(k: Package, s: State, fr: seq<Frame>) {
    forall m, x :: m in Done(s) && x in TargetsAll(k.Source(m)) ==> Settled(s, m, x) || Pending(s, fr, m, x)
  }

  /** The trees kept for later are the sources, with exactly the right modules inlined. */
  ghost predicate AstsShape(k: Package, s: State) {
    forall m :: m in s.asts ==>
      && EraseAll(s.asts[m]) == k.Source(m)
      && WellInlinedAll(k, s.asts[m])
      && (forall p :: p in InlinedAll(s.asts[m]) <==> InlinedInto(s.inlines, p, m))
  }

  /**
   The whole invariant. Contracts below state it as `Inv(...) == true`, so that the verifier
   takes it as one fact instead of checking every conjunct of every part separately.
   */
  ghost predicate Inv(k: Package, s: State, fr: seq<Frame>) {
    && Shape(k, s, fr)
    && GraphShape(k, s, fr)
    && GraphOrigin(k, s)
    && InlinesShape(k, s, fr)
    && ErrsShape(k, fr)
    && ImportsShape(k, s, fr)
    && AstsShape(k, s)
  }

  /** What only grows while the top module is searched, and what stays as it was for the frames below it. */
  ghost predicate Grown(s: State, t: State, fr: seq<Frame>) {
    && Done(s) <= Done(t)
    && Extends(t.g, s.g)
    && (forall i, p :: 0 <= i < |fr| - 1 ==> (InlinedInto(t.inlines, p, fr[i].path) <==> InlinedInto(s.inlines, p, fr[i].path)))
  }

  /** From `s` to `t` the search of the top module went on and collected `errs`. */
  ghost predicate Advanced(k: Package, s: State, t: State, fr: seq<Frame>, errs: set<Path>)
    requires fr != []
  {
    Inv(k, t, WithErrs(fr, errs)) && Grown(s, t, fr)
  }

  /** The imports `targets` of the top module have been dealt with. */
  ghost predicate Handled(s: State, fr: seq<Frame>, targets: set<Path>)
    requires fr != []
  {
    targets <= {Top(fr).path} + Deps(s.g, Top(fr).path) + Top(fr).errs
  }

  /** What was inlined into the top module between `s` and `t` is what its tree now shows. */
  ghost predicate NewlyInlined(s: State, t: State, m: Path, shown: set<Path>) {
    forall p :: InlinedInto(t.inlines, p, m) <==> InlinedInto(s.inlines, p, m) || p in shown
  }

  /**
   From `s` to `t` the import `call` of the top module was dealt with and became `out`,
   and the cycle errors `errs` were collected for the modules above.
   */
  ghost predicate Visited(k: Package, s: State, t: State, fr: seq<Frame>, errs: set<Path>, call: Expr, out: Expr)
    requires fr != [] && call.Import? && call.target.Some?
  {
    && Inv(k, t, WithErrs(fr, errs))
    && Grown(s, t, fr)
    && Handled(t, WithErrs(fr, errs), {call.target.value})
    && Erase(out) == Erase(call) && WellInlined(k, out) && Inlined(call) <= Inlined(out)
    && NewlyInlined(s, t, Top(fr).path, Inlined(out) - Inlined(call))
  }

  // ---- facts that follow from the invariant ----

  lemma OpenPush(fr: seq<Frame>, f: Frame)
    ensures Open(fr + [f]) == Open(fr) + {f.path}
  {
  }

  lemma OpenWithErrs(fr: seq<Frame>, errs: set<Path>)
    requires fr != []
    ensures Open(WithErrs(fr, errs)) == Open(fr)
    ensures forall i :: 0 <= i < |fr| ==> WithErrs(fr, errs)[..i] == fr[..i]
    ensures |WithErrs(fr, errs)| == |fr| && forall i :: 0 <= i < |fr| ==> WithErrs(fr, errs)[i].path == fr[i].path
  {
    var n := |fr| - 1;
    assert fr == fr[..n] + [Top(fr)];
    assert WithErrs(fr, errs) == fr[..n] + [Frame(Top(fr).path, Top(fr).errs + errs)];
    OpenPush(fr[..n], Top(fr));
    OpenPush(fr[..n], Frame(Top(fr).path, Top(fr).errs + errs));
  }

  lemma NoErrs(fr: seq<Frame>)
    requires fr != []
    ensures WithErrs(fr, {}) == fr
  {
    assert Top(fr).errs + {} == Top(fr).errs;
  }

  /** A module in progress reaches every one entered after it. */
  lemma {:induction false} FramesReach(k: Package, s: State, fr: seq<Frame>, i: nat, j: nat)
    requires GraphShape(k, s, fr) && i < j < |fr|
    ensures Reaches(s.g, fr[i].path, fr[j].path)
    decreases j
  {
    assert fr[j - 1 + 1].path in Deps(s.g, fr[j - 1].path);
    EdgeReaches(s.g, fr[j - 1].path, fr[j].path);
    if i < j - 1 {
      FramesReach(k, s, fr, i, j - 1);
      ReachesTransitive(s.g, fr[i].path, fr[j - 1].path, fr[j].path);
    }
  }

  lemma OpenReachesTop(k: Package, s: State, fr: seq<Frame>, v: Path)
    requires Inv(k, s, fr) && v in Open(fr) && v != Top(fr).path
    ensures Reaches(s.g, v, Top(fr).path) && v in Open(fr[..|fr| - 1])
  {
    var f :| f in fr && f.path == v;
    var i :| 0 <= i < |fr| && fr[i] == f;
    assert fr[..|fr| - 1][i] == f;
    FramesReach(k, s, fr, i, |fr| - 1);
  }

  /** The graph refuses an edge from the top module exactly when it would lead to a module in progress above it. */
  lemma RefusedIffOpen(k: Package, s: State, fr: seq<Frame>, v: Path)
    requires Inv(k, s, fr) && v != Top(fr).path
    ensures Reaches(s.g, v, Top(fr).path) <==> v in Open(fr)
  {
    var u := Top(fr).path;
    if v in Open(fr) {
      OpenReachesTop(k, s, fr, v);
    } else if Reaches(s.g, v, u) {
      assert Deps(s.g, v) <= Done(s);
      ReachesStaysInside(s.g, Done(s), v, u);
    }
  }

  /** Edges are imports, so dependency implies import. */
  lemma DependsImports(k: Package, s: State, a: Path, b: Path)
    requires GraphOrigin(k, s) && s.g.Keys <= k.Universe()
    requires Reaches(s.g, a, b)
    ensures Reaches(k.ImportGraph(), a, b)
  {
    ReachesMonotone(s.g, k.ImportGraph(), a, b);
  }

  lemma ImportReaches(k: Package, m: Path, x: Path)
    requires m in k.Universe() && x in TargetsAll(k.Source(m))
    ensures Reaches(k.ImportGraph(), m, x)
  {
    EdgeReaches(k.ImportGraph(), m, x);
  }

  /** Recording one more inliner extends the chains that led to the inlined module. */
  lemma InlinedIntoUpdate(inlines: map<Path, Path>, v: Path, u: Path, p: Path, m: Path)
    requires v !in inlines && u !in inlines && u != v
    ensures InlinedInto(inlines[v := u], p, m) <==>
              InlinedInto(inlines, p, m) || (m == u && (p == v || InlinedInto(inlines, p, v)))
  {
    var a, b := InlineGraph(inlines), InlineGraph(inlines[v := u]);
    assert {} + {u} == {u};
    assert b == AddEdge(a, v, u);
    AddEdgeExtends(a, v, u);
    if InlinedInto(inlines[v := u], p, m) {
      ReachesAfterAddEdge(a, v, u, p, m);
      if Reaches(a, u, m) {
        var x := FirstStep(a, u, m);
      }
    }
    if InlinedInto(inlines, p, m) {
      ReachesMonotone(a, b, p, m);
    }
    EdgeReaches(b, v, u);
    if InlinedInto(inlines, p, v) {
      ReachesMonotone(a, b, p, v);
      ReachesTransitive(b, p, v, u);
    }
  }

  /** Nothing is inlined into a module that has not been seen yet. */
  lemma NothingInlinedInto(k: Package, s: State, fr: seq<Frame>, v: Path, p: Path)
    requires Inv(k, s, fr) && v !in Done(s) && v !in Open(fr)
    ensures !InlinedInto(s.inlines, p, v)
  {
    if InlinedInto(s.inlines, p, v) {
      var q := LastStep(InlineGraph(s.inlines), p, v);
    }
  }

  // ---- the steps ----

  /** A larger graph settles at least as many imports. */
  lemma ImportsAfterGrow(k: Package, s: State, t: State, fr: seq<Frame>)
    requires ImportsShape(k, s, fr)
    requires t.asts == s.asts && t.inlines == s.inlines && Extends(t.g, s.g)
    ensures ImportsShape(k, t, fr)
  {
    forall m, x | m in Done(t) && x in TargetsAll(k.Source(m))
      ensures Settled(t, m, x) || Pending(t, fr, m, x)
    {
      assert Settled(s, m, x) || Pending(s, fr, m, x);
      if Pending(s, fr, m, x) {
        var i :| 0 <= i < |fr| && PendingAt(s, fr, i, m, x);
        assert PendingAt(t, fr, i, m, x);
      }
    }
  }

  lemma OriginAfterEdge(k: Package, s: State, t: State, u: Path, v: Path)
    requires GraphOrigin(k, s) && v in TargetsAll(k.Source(u))
    requires t.g == AddEdge(s.g, u, v) && Done(t) == Done(s)
    ensures GraphOrigin(k, t)
  {
    AddEdgeExtends(s.g, u, v);
    forall p | p in Done(t)
      ensures Reaches(t.g, k.root, p)
    {
      ReachesMonotone(s.g, t.g, k.root, p);
    }
  }

  lemma GraphAfterEdge(k: Package, s: State, t: State, fr: seq<Frame>, v: Path)
    requires Inv(k, s, fr) && v in Done(s)
    requires t == s.(g := AddEdge(s.g, Top(fr).path, v))
    ensures GraphShape(k, t, fr)
  {
    hide GraphOrigin;
    hide InlinesShape;
    hide ErrsShape;
    hide ImportsShape;
    hide AstsShape;
    var u := Top(fr).path;
    assert u !in Done(s) && v !in Open(fr);
    assert u in Open(fr) by {
      assert Top(fr) in fr;
    }
    RefusedIffOpen(k, s, fr, v);
    AddEdgeKeepsAcyclic(s.g, u, v);
    assert Closed(t.g);
    forall i | 0 <= i < |fr| - 1
      ensures Deps(t.g, fr[i].path) == Deps(s.g, fr[i].path)
    {
      assert fr[i].path != fr[|fr| - 1].path;
    }
  }

  /** An accepted edge to a finished module. */
  lemma AcceptFinished(k: Package, s: State, t: State, fr: seq<Frame>, v: Path)
    requires Inv(k, s, fr) && v in Done(s)
    requires v in TargetsAll(k.Source(Top(fr).path))
    requires t == s.(g := AddEdge(s.g, Top(fr).path, v))
    ensures Advanced(k, s, t, fr, {})
  {
    NoErrs(fr);
    AddEdgeExtends(s.g, Top(fr).path, v);
    GraphAfterEdge(k, s, t, fr, v);
    OriginAfterEdge(k, s, t, Top(fr).path, v);
    ImportsAfterGrow(k, s, t, fr);
    assert InlinesShape(k, t, fr);
    assert AstsShape(k, t);
  }

  /** An import of the module itself adds at most its node. */
  lemma SelfImport(k: Package, s: State, t: State, fr: seq<Frame>)
    requires Inv(k, s, fr)
    requires t == s.(g := AddNode(s.g, Top(fr).path))
    ensures Advanced(k, s, t, fr, {}) == true
  {
    NoErrs(fr);
    SelfImportGraph(k, s, t, fr);
    ImportsAfterGrow(k, s, t, fr);
    SelfImportRest(k, s, t, fr);
  }

  lemma SelfImportRest(k: Package, s: State, t: State, fr: seq<Frame>)
    requires Shape(k, s, fr) && InlinesShape(k, s, fr) && AstsShape(k, s)
    requires t.asts == s.asts && t.inlines == s.inlines && forall p :: Deps(t.g, p) == Deps(s.g, p)
    ensures Shape(k, t, fr) && InlinesShape(k, t, fr) && AstsShape(k, t) && Grown(s, t, fr)
  {
  }

  lemma SelfImportGraph(k: Package, s: State, t: State, fr: seq<Frame>)
    requires fr != [] && GraphShape(k, s, fr) && GraphOrigin(k, s)
    requires t == s.(g := AddNode(s.g, Top(fr).path))
    ensures GraphShape(k, t, fr) && GraphOrigin(k, t) && Extends(t.g, s.g)
    ensures forall p :: Deps(t.g, p) == Deps(s.g, p)
  {
    hide Closed;
    AddNodeKeepsClosed(s.g, Top(fr).path);
    var u := Top(fr).path;
    assert Top(fr) in fr;
    AddNodeKeepsDeps(s.g, u);
    forall p, q: Path
      ensures Reaches(t.g, p, q) <==> Reaches(s.g, p, q)
    {
      AddNodeKeepsReaches(s.g, u, p, q);
    }
  }

  lemma OpenAreNodes(k: Package, s: State, fr: seq<Frame>, v: Path)
    requires Inv(k, s, fr) && v in Open(fr) && v != Top(fr).path
    ensures v in s.g && Top(fr).path in s.g
  {
    OpenReachesTop(k, s, fr, v);
    var a := FirstStep(s.g, v, Top(fr).path);
    var b := LastStep(s.g, v, Top(fr).path);
  }

  /** A refused edge becomes a cycle error and changes nothing else. */
  lemma Refuse(k: Package, s: State, fr: seq<Frame>, v: Path)
    requires Inv(k, s, fr) && v in Open(fr) && v != Top(fr).path
    requires v in TargetsAll(k.Source(Top(fr).path))
    ensures Advanced(k, s, s, fr, {v}) == true
  {
    WithErrsKeepsShape(k, s, fr, {v});
    RefuseErrs(k, s, fr, v);
    RefuseImports(k, s, fr, v);
  }

  lemma RefuseErrs(k: Package, s: State, fr: seq<Frame>, v: Path)
    requires Inv(k, s, fr) && v in Open(fr) && v != Top(fr).path
    requires v in TargetsAll(k.Source(Top(fr).path))
    ensures ErrsShape(k, WithErrs(fr, {v})) == true
  {
    hide GraphShape;
    hide GraphOrigin;
    hide InlinesShape;
    hide ImportsShape;
    hide AstsShape;
    var n, w := |fr| - 1, WithErrs(fr, {v});
    OpenReachesTop(k, s, fr, v);
    ImportReaches(k, Top(fr).path, v);
    OpenWithErrs(fr, {v});
    forall i | 0 <= i < |w|
      ensures w[i].errs <= Open(w[..i])
      ensures forall x :: x in w[i].errs ==> Reaches(k.ImportGraph(), w[i].path, x)
    {
      assert fr[i].errs <= Open(fr[..i]);
    }
  }

  lemma RefuseImports(k: Package, s: State, fr: seq<Frame>, v: Path)
    requires fr != [] && ImportsShape(k, s, fr)
    ensures ImportsShape(k, s, WithErrs(fr, {v}))
  {
    forall m, x | m in Done(s) && x in TargetsAll(k.Source(m))
      ensures Settled(s, m, x) || Pending(s, WithErrs(fr, {v}), m, x)
    {
      if Pending(s, fr, m, x) {
        var i :| 0 <= i < |fr| && PendingAt(s, fr, i, m, x);
        assert PendingAt(s, WithErrs(fr, {v}), i, m, x);
      }
    }
  }

  /** What the answer of the module graph to a new edge says about the imported module. */
  lemma EdgeAnswer(k: Package, s: State, fr: seq<Frame>, v: Path)
    requires Inv(k, s, fr) && v != Top(fr).path
    ensures Reaches(AddNode(s.g, v), v, Top(fr).path) <==> v in Open(fr)
    ensures v in Open(fr) ==> AddNode(AddNode(s.g, v), Top(fr).path) == s.g
    ensures v in Done(s) ==> AddNode(s.g, v) == s.g
  {
    AddNodeKeepsReaches(s.g, v, v, Top(fr).path);
    RefusedIffOpen(k, s, fr, v);
    if v in Open(fr) {
      OpenAreNodes(k, s, fr, v);
    }
  }

  // ---- entering a module that has not been seen ----

  lemma PushAcyclic(k: Package, s: State, fr: seq<Frame>, v: Path)
    requires Inv(k, s, fr) && v !in Done(s) && v !in Open(fr)
    ensures Acyclic(AddEdge(AddNode(s.g, v), Top(fr).path, v))
  {
    var u := Top(fr).path;
    assert Top(fr) in fr;
    RefusedIffOpen(k, s, fr, v);
    forall p: Path
      ensures !Reaches(AddNode(s.g, v), p, p)
    {
      AddNodeKeepsReaches(s.g, v, p, p);
    }
    AddNodeKeepsReaches(s.g, v, v, u);
    AddEdgeKeepsAcyclic(AddNode(s.g, v), u, v);
  }

  /** The only module whose dependencies change on a push is the top one, which gets the new module. */
  lemma PushDeps(s: State, t: State, u: Path, v: Path)
    requires u != v && v !in s.g
    requires t == s.(g := AddEdge(AddNode(s.g, v), u, v))
    ensures t.g.Keys == s.g.Keys + {u, v} && Deps(t.g, v) == {}
    ensures forall p :: Deps(t.g, p) == if p == u then Deps(s.g, u) + {v} else Deps(s.g, p)
  {
  }

  lemma PushGraph(k: Package, s: State, t: State, fr: seq<Frame>, v: Path)
    requires Shape(k, s, fr) && GraphShape(k, s, fr) && v !in Done(s) && v !in Open(fr)
    requires t.asts == s.asts && t.inlines == s.inlines && Acyclic(t.g)
    requires t.g.Keys == s.g.Keys + {Top(fr).path, v}
    requires forall p :: Deps(t.g, p) == if p == Top(fr).path then Deps(s.g, p) + {v} else Deps(s.g, p)
    ensures GraphShape(k, t, fr + [Frame(v, {})])
  {
    var u := Top(fr).path;
    var f2 := fr + [Frame(v, {})];
    assert Top(fr) in fr;
    OpenPush(fr, Frame(v, {}));
    assert v !in s.g;
    assert Closed(t.g) by {
      forall p | p in t.g
        ensures t.g[p] <= t.g.Keys
      {
        assert t.g[p] == Deps(t.g, p);
        assert Deps(s.g, p) <= s.g.Keys;
      }
    }
    forall i | 0 <= i < |f2| - 1
      ensures f2[i + 1].path in Deps(t.g, f2[i].path)
      ensures Deps(t.g, f2[i].path) <= Done(t) + {f2[i + 1].path}
    {
      assert f2[i] == fr[i];
      if i < |fr| - 1 {
        assert fr[i].path != fr[|fr| - 1].path && f2[i + 1] == fr[i + 1];
      }
    }
  }

  lemma PushShape(k: Package, s: State, t: State, fr: seq<Frame>, v: Path)
    requires Shape(k, s, fr) && v !in Done(s) && v !in Open(fr) && v in k.Universe()
    requires Done(t) == Done(s) && t.asts == s.asts && t.inlines == s.inlines
    ensures Shape(k, t, fr + [Frame(v, {})])
  {
  }

  lemma PushOrigin(k: Package, s: State, t: State, u: Path, v: Path)
    requires GraphOrigin(k, s) && v in TargetsAll(k.Source(u)) && u != v && v !in s.g
    requires t == s.(g := AddEdge(AddNode(s.g, v), u, v))
    ensures GraphOrigin(k, t) && Extends(t.g, s.g)
  {
    PushDeps(s, t, u, v);
    forall p | p in Done(t)
      ensures Reaches(t.g, k.root, p)
    {
      ReachesMonotone(s.g, t.g, k.root, p);
    }
  }

  lemma PushErrs(k: Package, s: State, fr: seq<Frame>, v: Path)
    requires ErrsShape(k, fr)
    ensures ErrsShape(k, fr + [Frame(v, {})])
  {
    var f2 := fr + [Frame(v, {})];
    forall i | 0 <= i < |f2|
      ensures f2[i].errs <= Open(f2[..i])
    {
      if i < |fr| {
        assert f2[..i] == fr[..i];
      }
    }
  }

  lemma PushImports(k: Package, s: State, fr: seq<Frame>, v: Path)
    requires ImportsShape(k, s, fr)
    ensures ImportsShape(k, s, fr + [Frame(v, {})])
  {
    var f2 := fr + [Frame(v, {})];
    forall m, x | m in Done(s) && x in TargetsAll(k.Source(m))
      ensures Settled(s, m, x) || Pending(s, f2, m, x)
    {
      if Pending(s, fr, m, x) {
        var i :| 0 <= i < |fr| && PendingAt(s, fr, i, m, x);
        assert PendingAt(s, f2, i, m, x);
      }
    }
  }

  lemma Push(k: Package, s: State, t: State, fr: seq<Frame>, v: Path)
    requires Inv(k, s, fr) && v !in Done(s) && v !in Open(fr)
    requires v in TargetsAll(k.Source(Top(fr).path))
    requires t == s.(g := AddEdge(AddNode(s.g, v), Top(fr).path, v))
    ensures Inv(k, t, fr + [Frame(v, {})])
    ensures Extends(t.g, s.g) && v in Deps(t.g, Top(fr).path)
  {
    hide GraphOrigin;
    hide InlinesShape;
    hide ErrsShape;
    hide ImportsShape;
    hide AstsShape;
    var u := Top(fr).path;
    var f2 := fr + [Frame(v, {})];
    assert Top(fr) in fr;
    k.TargetsInUniverse(u);
    PushShape(k, s, t, fr, v);
    PushAcyclic(k, s, fr, v);
    PushDeps(s, t, u, v);
    PushGraph(k, s, t, fr, v);
    PushOrigin(k, s, t, u, v);
    PushErrs(k, t, fr, v);
    ImportsAfterGrow(k, s, t, fr);
    PushImports(k, t, fr, v);
    OpenPush(fr, Frame(v, {}));
    PushRest(k, s, t, fr, v);
  }

  lemma PushRest(k: Package, s: State, t: State, fr: seq<Frame>, v: Path)
    requires InlinesShape(k, s, fr) && AstsShape(k, s)
    requires t.asts == s.asts && t.inlines == s.inlines && Extends(t.g, s.g)
    ensures InlinesShape(k, t, fr + [Frame(v, {})]) && AstsShape(k, t)
  {
  }

  // ---- leaving a module ----

  lemma PopShape(k: Package, s: State, t: State, fr: seq<Frame>, f: Frame)
    requires fr != [] && Shape(k, s, fr + [f]) && Done(t) == Done(s) + {f.path} && t.asts.Keys !! t.inlines.Keys
    ensures Shape(k, t, fr)
  {
    var f2 := fr + [f];
    forall i | 0 <= i < |fr|
      ensures fr[i].path != f.path && fr[i].path !in Done(s) && fr[i].path in k.Universe()
    {
      assert f2[i] == fr[i] && f2[|fr|] == f;
    }
    forall i, j | 0 <= i < j < |fr|
      ensures fr[i].path != fr[j].path
    {
      assert f2[i] == fr[i] && f2[j] == fr[j];
    }
    assert f2[0] == fr[0] && f2[|fr|] == f;
  }

  lemma TopIsNew(k: Package, s: State, fr: seq<Frame>, f: Frame)
    requires Shape(k, s, fr + [f])
    ensures f.path !in Done(s) && s.asts.Keys !! s.inlines.Keys
  {
    assert (fr + [f])[|fr|] == f;
  }

  lemma PopGraph(k: Package, s: State, t: State, fr: seq<Frame>, f: Frame)
    requires fr != [] && GraphShape(k, s, fr + [f]) && Done(t) == Done(s) + {f.path} && t.g == s.g
    ensures GraphShape(k, t, fr)
  {
    hide Acyclic, Open;
    var f2 := fr + [f];
    OpenPush(fr, f);
    assert Top(f2) == f && f2[|fr| - 1] == Top(fr) && f2[|fr| - 1 + 1] == f;
    forall i | 0 <= i < |fr| - 1
      ensures fr[i + 1].path in Deps(t.g, fr[i].path)
      ensures Deps(t.g, fr[i].path) <= Done(t) + {fr[i + 1].path}
    {
      assert f2[i] == fr[i] && f2[i + 1] == fr[i + 1];
    }
    assert f.path in s.g.Keys by {
      assert f.path in Deps(s.g, f2[|fr| - 1].path);
    }
  }

  lemma PopOrigin(k: Package, s: State, t: State, fr: seq<Frame>, f: Frame)
    requires fr != [] && Inv(k, s, fr + [f]) && Done(t) == Done(s) + {f.path} && t.g == s.g
    ensures GraphOrigin(k, t)
  {
    FramesReach(k, s, fr + [f], 0, |fr|);
  }

  lemma PopErrs(k: Package, fr: seq<Frame>, f: Frame)
    requires ErrsShape(k, fr + [f])
    ensures ErrsShape(k, fr)
  {
    var f2 := fr + [f];
    forall i | 0 <= i < |fr|
      ensures fr[i].errs <= Open(fr[..i])
      ensures forall x :: x in fr[i].errs ==> Reaches(k.ImportGraph(), fr[i].path, x)
    {
      assert f2[i] == fr[i] && f2[..i] == fr[..i];
    }
  }

  lemma CleanImports(k: Package, s: State, t: State, fr: seq<Frame>, v: Path, ast: seq<Expr>)
    requires fr != [] && ImportsShape(k, s, fr + [Frame(v, {})])
    requires t == s.(asts := s.asts[v := ast])
    requires Handled(s, fr + [Frame(v, {})], TargetsAll(k.Source(v)))
    ensures ImportsShape(k, t, fr)
  {
    var f2 := fr + [Frame(v, {})];
    assert Top(f2) == Frame(v, {}) && f2[|fr|] == Frame(v, {});
    forall m, x | m in Done(t) && x in TargetsAll(k.Source(m))
      ensures Settled(t, m, x) || Pending(t, fr, m, x)
    {
      if m == v {
        assert Settled(t, m, x);
      } else {
        assert Settled(s, m, x) || Pending(s, f2, m, x);
        if Pending(s, f2, m, x) {
          var i :| 0 <= i < |f2| && PendingAt(s, f2, i, m, x);
          assert f2[i] == fr[i];
          assert PendingAt(t, fr, i, m, x);
        }
      }
    }
  }

  lemma PopInlines(k: Package, s: State, t: State, fr: seq<Frame>, f: Frame)
    requires InlinesShape(k, s, fr + [f])
    requires t.inlines == s.inlines && t.g == s.g && Done(t) == Done(s) + {f.path}
    ensures InlinesShape(k, t, fr)
  {
  }

  lemma CleanAsts(k: Package, s: State, t: State, v: Path, ast: seq<Expr>)
    requires AstsShape(k, s)
    requires t == s.(asts := s.asts[v := ast])
    requires EraseAll(ast) == k.Source(v) && WellInlinedAll(k, ast)
    requires forall p :: p in InlinedAll(ast) <==> InlinedInto(s.inlines, p, v)
    ensures AstsShape(k, t)
  {
  }

  /** The module is done without cycle errors: it will be built on its own. */
  lemma PopClean(k: Package, s: State, t: State, fr: seq<Frame>, v: Path, ast: seq<Expr>)
    requires fr != [] && Inv(k, s, fr + [Frame(v, {})])
    requires t == s.(asts := s.asts[v := ast])
    requires EraseAll(ast) == k.Source(v) && WellInlinedAll(k, ast)
    requires forall p :: p in InlinedAll(ast) <==> InlinedInto(s.inlines, p, v)
    requires Handled(s, fr + [Frame(v, {})], TargetsAll(k.Source(v)))
    ensures Inv(k, t, fr) == true
  {
    hide Shape;
    hide GraphShape;
    hide GraphOrigin;
    hide InlinesShape;
    hide ErrsShape;
    hide ImportsShape;
    hide AstsShape;
    hide Handled;
    var f := Frame(v, {});
    TopIsNew(k, s, fr, f);
    assert Done(t) == Done(s) + {v};
    PopShape(k, s, t, fr, f);
    PopGraph(k, s, t, fr, f);
    PopOrigin(k, s, t, fr, f);
    PopErrs(k, fr, f);
    PopInlines(k, s, t, fr, f);
    CleanImports(k, s, t, fr, v, ast);
    CleanAsts(k, s, t, v, ast);
  }

  lemma InlineAsts(k: Package, s: State, t: State, fr: seq<Frame>, f: Frame)
    requires fr != [] && Shape(k, s, fr + [f]) && AstsShape(k, s)
    requires t == s.(inlines := s.inlines[f.path := Top(fr).path])
    ensures AstsShape(k, t)
  {
    var f2 := fr + [f];
    assert f2[|fr|] == f && f2[|fr| - 1] == Top(fr);
    forall m, p | m in t.asts
      ensures InlinedInto(t.inlines, p, m) <==> InlinedInto(s.inlines, p, m)
    {
      InlinedIntoUpdate(s.inlines, f.path, Top(fr).path, p, m);
    }
  }

  lemma InlineErrs(k: Package, fr: seq<Frame>, f: Frame)
    requires fr != [] && ErrsShape(k, fr + [f]) && Reaches(k.ImportGraph(), Top(fr).path, f.path)
    ensures ErrsShape(k, WithErrs(fr, f.errs - {Top(fr).path}))
  {
    var u, f2 := Top(fr), fr + [f];
    var n := |fr| - 1;
    var w := WithErrs(fr, f.errs - {u.path});
    assert f2[|fr|] == f && f2[..|fr|] == fr && fr == fr[..n] + [u];
    OpenPush(fr[..n], u);
    forall i | 0 <= i < |w|
      ensures w[i].errs <= Open(w[..i])
      ensures forall x :: x in w[i].errs ==> Reaches(k.ImportGraph(), w[i].path, x)
    {
      assert w[..i] == fr[..i] == f2[..i] && f2[i] == fr[i];
      if i == n {
        forall x | x in f.errs
          ensures Reaches(k.ImportGraph(), u.path, x)
        {
          ReachesTransitive(k.ImportGraph(), u.path, f.path, x);
        }
      }
    }
  }

  /** Pending imports of the module, or of what is inlined into it, move to its inliner, or are settled there. */
  lemma InlinePending(k: Package, s: State, t: State, fr: seq<Frame>, f: Frame, m: Path, x: Path)
    requires fr != [] && Shape(k, s, fr + [f])
    requires t == s.(inlines := s.inlines[f.path := Top(fr).path])
    requires x in f.errs && (m == f.path || InlinedInto(s.inlines, m, f.path))
    ensures Settled(t, m, x) || Pending(t, WithErrs(fr, f.errs - {Top(fr).path}), m, x)
  {
    var u, f2 := Top(fr).path, fr + [f];
    var w := WithErrs(fr, f.errs - {u});
    assert f2[|fr|] == f && f2[|fr| - 1] == Top(fr);
    InlinedIntoUpdate(s.inlines, f.path, u, m, u);
    assert InlinedInto(t.inlines, m, u);
    if x != u {
      assert PendingAt(t, w, |fr| - 1, m, x);
    }
  }

  lemma InlineImports(k: Package, s: State, t: State, fr: seq<Frame>, f: Frame)
    requires fr != [] && Shape(k, s, fr + [f]) && ImportsShape(k, s, fr + [f])
    requires t == s.(inlines := s.inlines[f.path := Top(fr).path])
    requires Handled(s, fr + [f], TargetsAll(k.Source(f.path)))
    ensures ImportsShape(k, t, WithErrs(fr, f.errs - {Top(fr).path}))
  {
    var u, f2 := Top(fr).path, fr + [f];
    var w := WithErrs(fr, f.errs - {u});
    assert f2[|fr|] == f && Top(f2) == f && f2[|fr| - 1] == Top(fr);
    forall m, x | m in Done(t) && x in TargetsAll(k.Source(m))
      ensures Settled(t, m, x) || Pending(t, w, m, x)
    {
      InlinedIntoUpdate(s.inlines, f.path, u, m, x);
      if m == f.path {
        if x in f.errs {
          InlinePending(k, s, t, fr, f, m, x);
        }
      } else {
        assert Settled(s, m, x) || Pending(s, f2, m, x);
        if Pending(s, f2, m, x) {
          var i :| 0 <= i < |f2| && PendingAt(s, f2, i, m, x);
          if i == |fr| {
            InlinePending(k, s, t, fr, f, m, x);
          } else {
            assert f2[i] == fr[i];
            InlinedIntoUpdate(s.inlines, f.path, u, m, fr[i].path);
            assert PendingAt(t, w, i, m, x);
          }
        }
      }
    }
  }

  lemma ErrorFrame(k: Package, fr: seq<Frame>, f: Frame, x: Path) returns (i: nat)
    requires ErrsShape(k, fr + [f]) && x in f.errs
    ensures i < |fr| && fr[i].path == x && Reaches(k.ImportGraph(), f.path, x)
  {
    var f2 := fr + [f];
    assert f2[|fr|] == f && f2[..|fr|] == fr;
    assert x in Open(f2[..|fr|]) && x in f2[|fr|].errs;
    var h :| h in fr && h.path == x;
    i :| 0 <= i < |fr| && fr[i] == h;
  }

  /** A cycle error of a module proves that it imports, in some way, the module that imported it. */
  lemma ErrorMeansCycle(k: Package, s: State, fr: seq<Frame>, f: Frame, x: Path)
    requires fr != [] && Inv(k, s, fr + [f]) && x in f.errs
    ensures Reaches(k.ImportGraph(), f.path, Top(fr).path)
  {
    hide Shape;
    hide GraphShape;
    hide GraphOrigin;
    hide InlinesShape;
    hide ErrsShape;
    hide ImportsShape;
    hide AstsShape;
    var f2, n := fr + [f], |fr|;
    var i := ErrorFrame(k, fr, f, x);
    assert f2[i] == fr[i] && f2[n - 1] == Top(fr);
    if i < n - 1 {
      FramesReach(k, s, f2, i, n - 1);
      GraphInUniverse(k, s, f2);
      DependsImports(k, s, x, Top(fr).path);
      ReachesTransitive(k.ImportGraph(), f.path, x, Top(fr).path);
    }
  }

  lemma GraphInUniverse(k: Package, s: State, fr: seq<Frame>)
    requires Shape(k, s, fr) && GraphShape(k, s, fr)
    ensures s.g.Keys <= k.Universe()
  {
  }

  lemma InlineInlines(k: Package, s: State, t: State, fr: seq<Frame>, f: Frame)
    requires fr != [] && InlinesShape(k, s, fr + [f])
    requires t == s.(inlines := s.inlines[f.path := Top(fr).path])
    requires f.path in Deps(s.g, Top(fr).path) && Reaches(k.ImportGraph(), f.path, Top(fr).path)
    ensures InlinesShape(k, t, fr)
  {
  }

  lemma WithErrsKeepsShape(k: Package, t: State, fr: seq<Frame>, errs: set<Path>)
    requires fr != [] && Shape(k, t, fr) && GraphShape(k, t, fr) && InlinesShape(k, t, fr)
    ensures var w := WithErrs(fr, errs); Shape(k, t, w) && GraphShape(k, t, w) && InlinesShape(k, t, w)
  {
    OpenWithErrs(fr, errs);
  }

  /** The module is done with cycle errors: it is inlined into the module that imported it. */
  lemma PopInline(k: Package, s: State, t: State, fr: seq<Frame>, f: Frame)
    requires fr != [] && Inv(k, s, fr + [f]) && f.errs != {}
    requires t == s.(inlines := s.inlines[f.path := Top(fr).path])
    requires Handled(s, fr + [f], TargetsAll(k.Source(f.path)))
    ensures Inv(k, t, WithErrs(fr, f.errs - {Top(fr).path})) == true
  {
    hide GraphOrigin;
    hide InlinesShape;
    hide ErrsShape;
    hide ImportsShape;
    hide AstsShape;
    hide Handled;
    var u, f2 := Top(fr).path, fr + [f];
    assert f2[|fr|] == f && f2[|fr| - 1] == Top(fr) && f2[|fr| - 1 + 1] == f;
    assert f.path in Deps(s.g, u);
    PopShape(k, s, t, fr, f);
    PopGraph(k, s, t, fr, f);
    PopOrigin(k, s, t, fr, f);
    var x :| x in f.errs;
    ErrorMeansCycle(k, s, fr, f, x);
    InlineInlines(k, s, t, fr, f);
    WithErrsKeepsShape(k, t, fr, f.errs - {u});
    ImportReaches(k, u, f.path);
    InlineErrs(k, fr, f);
    InlineImports(k, s, t, fr, f);
    InlineAsts(k, s, t, fr, f);
  }

  // ---- putting steps together ----

  lemma GrownTrans(s: State, t: State, r: State, fr: seq<Frame>, errs: set<Path>)
    requires fr != [] && Grown(s, t, fr) && Grown(t, r, WithErrs(fr, errs))
    ensures Grown(s, r, fr) == true
  {
    OpenWithErrs(fr, errs);
    forall i, p | 0 <= i < |fr| - 1
      ensures InlinedInto(r.inlines, p, fr[i].path) <==> InlinedInto(s.inlines, p, fr[i].path)
    {
      assert WithErrs(fr, errs)[i].path == fr[i].path;
    }
    forall p
      ensures Deps(s.g, p) <= Deps(r.g, p)
    {
      assert Deps(s.g, p) <= Deps(t.g, p);
    }
  }

  lemma WithErrsTwice(fr: seq<Frame>, e1: set<Path>, e2: set<Path>)
    requires fr != []
    ensures WithErrs(WithErrs(fr, e1), e2) == WithErrs(fr, e1 + e2)
  {
    assert Top(fr).errs + (e1 + e2) == Top(fr).errs + e1 + e2;
  }

  lemma HandledMonotone(s: State, t: State, fr: seq<Frame>, e1: set<Path>, e2: set<Path>, targets: set<Path>)
    requires fr != [] && Handled(s, WithErrs(fr, e1), targets) && Extends(t.g, s.g) && e1 <= e2
    ensures Handled(t, WithErrs(fr, e2), targets)
  {
  }

  lemma CleanGrown(s: State, s1: State, s2: State, t: State, fr: seq<Frame>, v: Path, ast: seq<Expr>)
    requires fr != [] && s1.asts == s.asts && s1.inlines == s.inlines && Extends(s1.g, s.g)
    requires Grown(s1, s2, fr + [Frame(v, {})])
    requires t == s2.(asts := s2.asts[v := ast])
    ensures Grown(s, t, fr) == true
    ensures NewlyInlined(s, t, Top(fr).path, {})
  {
    var f2 := fr + [Frame(v, {})];
    forall i, p | 0 <= i < |fr|
      ensures InlinedInto(t.inlines, p, fr[i].path) <==> InlinedInto(s.inlines, p, fr[i].path)
    {
      assert f2[i] == fr[i];
    }
  }

  lemma InlinedGrown(s: State, s1: State, s2: State, t: State, fr: seq<Frame>, v: Path, ast: seq<Expr>)
    requires fr != [] && s1.asts == s.asts && s1.inlines == s.inlines && Extends(s1.g, s.g)
    requires Grown(s1, s2, fr + [Frame(v, {})])
    requires forall p :: InlinedInto(s2.inlines, p, v) <==> p in InlinedAll(ast)
    requires t == s2.(inlines := s2.inlines[v := Top(fr).path])
    requires v !in s2.inlines && Top(fr).path !in s2.inlines && Top(fr).path != v
    requires forall i :: 0 <= i < |fr| - 1 ==> fr[i].path != Top(fr).path
    ensures Grown(s, t, fr) == true
    ensures NewlyInlined(s, t, Top(fr).path, {v} + InlinedAll(ast))
  {
    var u, f2 := Top(fr).path, fr + [Frame(v, {})];
    forall p
      ensures InlinedInto(t.inlines, p, u) <==> InlinedInto(s.inlines, p, u) || p == v || p in InlinedAll(ast)
    {
      InlinedIntoUpdate(s2.inlines, v, u, p, u);
      assert f2[|fr| - 1] == Top(fr);
    }
    forall i, p | 0 <= i < |fr| - 1
      ensures InlinedInto(t.inlines, p, fr[i].path) <==> InlinedInto(s.inlines, p, fr[i].path)
    {
      assert f2[i] == fr[i];
      InlinedIntoUpdate(s2.inlines, v, u, p, fr[i].path);
    }
  }

  /** Everything in `ast` that is inlined is what has been inlined into the new module since it was entered. */
  lemma InlinedSinceEntry(k: Package, s: State, s2: State, fr: seq<Frame>, v: Path, ast: seq<Expr>)
    requires Inv(k, s, fr) && v !in Done(s) && v !in Open(fr)
    requires NewlyInlined(s, s2, v, InlinedAll(ast))
    ensures forall p :: InlinedInto(s2.inlines, p, v) <==> p in InlinedAll(ast)
  {
    forall p
      ensures InlinedInto(s2.inlines, p, v) <==> p in InlinedAll(ast)
    {
      NothingInlinedInto(k, s, fr, v, p);
    }
  }

  lemma OpenNotInlined(k: Package, s: State, fr: seq<Frame>, f: Frame)
    requires fr != [] && Shape(k, s, fr + [f])
    ensures f.path !in s.inlines && Top(fr).path !in s.inlines && Top(fr).path != f.path
    ensures forall i :: 0 <= i < |fr| - 1 ==> fr[i].path != Top(fr).path
  {
    var f2 := fr + [f];
    assert f2[|fr|] == f && f2[|fr| - 1] == Top(fr);
    forall i | 0 <= i < |fr| - 1
      ensures fr[i].path != Top(fr).path
    {
      assert f2[i] == fr[i];
    }
  }

  /** From the import of an unseen module to its end without cycle errors. */
  lemma VisitClean(k: Package, s: State, s1: State, s2: State, t: State, fr: seq<Frame>, v: Path, ast: seq<Expr>)
    requires Inv(k, s, fr) && v !in Done(s) && v !in Open(fr)
    requires s1.asts == s.asts && s1.inlines == s.inlines && Extends(s1.g, s.g)
    requires Advanced(k, s1, s2, fr + [Frame(v, {})], {})
    requires NewlyInlined(s, s2, v, InlinedAll(ast))
    requires t == s2.(asts := s2.asts[v := ast])
    requires EraseAll(ast) == k.Source(v) && WellInlinedAll(k, ast)
    requires Handled(s2, fr + [Frame(v, {})], TargetsAll(k.Source(v)))
    ensures Advanced(k, s, t, fr, {}) == true
    ensures NewlyInlined(s, t, Top(fr).path, {})
  {
    NoErrs(fr);
    NoErrs(fr + [Frame(v, {})]);
    InlinedSinceEntry(k, s, s2, fr, v, ast);
    PopClean(k, s2, t, fr, v, ast);
    CleanGrown(s, s1, s2, t, fr, v, ast);
  }

  /** From the import of an unseen module to its end with cycle errors. */
  lemma VisitInlined(k: Package, s: State, s1: State, s2: State, t: State, fr: seq<Frame>, f: Frame, ast: seq<Expr>)
    requires Inv(k, s, fr) && f.path !in Done(s) && f.path !in Open(fr) && f.errs != {}
    requires s1.asts == s.asts && s1.inlines == s.inlines && Extends(s1.g, s.g)
    requires Advanced(k, s1, s2, fr + [Frame(f.path, {})], f.errs)
    requires NewlyInlined(s, s2, f.path, InlinedAll(ast))
    requires t == s2.(inlines := s2.inlines[f.path := Top(fr).path])
    requires Handled(s2, fr + [f], TargetsAll(k.Source(f.path)))
    ensures Advanced(k, s, t, fr, f.errs - {Top(fr).path}) == true
    ensures NewlyInlined(s, t, Top(fr).path, {f.path} + InlinedAll(ast))
  {
    hide GraphShape;
    hide GraphOrigin;
    hide InlinesShape;
    hide ErrsShape;
    hide ImportsShape;
    hide AstsShape;
    assert {} + f.errs == f.errs;
    assert WithErrs(fr + [Frame(f.path, {})], f.errs) == fr + [f];
    InlinedSinceEntry(k, s, s2, fr, f.path, ast);
    OpenNotInlined(k, s2, fr, f);
    PopInline(k, s2, t, fr, f);
    InlinedGrown(s, s1, s2, t, fr, f.path, ast);
  }

  // ---- a stretch of the search of one module ----

  /**
   From `s` to `t` the chunks `es` of the top module were searched and became `out`,
   and the cycle errors `errs` were collected on the way.
   */
  ghost predicate Progress(k: Package, s: State, t: State, fr: seq<Frame>, errs: set<Path>, es: seq<Expr>, out: seq<Expr>)
    requires fr != []
  {
    && Inv(k, t, WithErrs(fr, errs))
    && Grown(s, t, fr)
    && Handled(t, WithErrs(fr, errs), TargetsAll(es))
    && EraseAll(out) == es && WellInlinedAll(k, out)
    && NewlyInlined(s, t, Top(fr).path, InlinedAll(out))
  }

  lemma NoProgress(k: Package, s: State, fr: seq<Frame>)
    requires fr != [] && Inv(k, s, fr)
    ensures Progress(k, s, s, fr, {}, [], []) == true
  {
    hide Inv;
    NoErrs(fr);
  }

  lemma ProgressLeaf(k: Package, s: State, fr: seq<Frame>)
    requires fr != [] && Inv(k, s, fr)
    ensures Progress(k, s, s, fr, {}, [Leaf], [Leaf]) == true
  {
    hide Inv;
    NoErrs(fr);
    One(k, Leaf);
  }

  lemma ProgressAppend(k: Package, s: State, t: State, r: State, fr: seq<Frame>, e1: set<Path>, e2: set<Path>,
                       es: seq<Expr>, out: seq<Expr>, e: Expr, e': Expr)
    requires fr != []
    requires Progress(k, s, t, fr, e1, es, out) && Progress(k, t, r, WithErrs(fr, e1), e2, [e], [e'])
    ensures Progress(k, s, r, fr, e1 + e2, es + [e], out + [e']) == true
  {
    hide Inv;
    WithErrsTwice(fr, e1, e2);
    GrownTrans(s, t, r, fr, e1);
    HandledMonotone(t, r, fr, e1, e1 + e2, TargetsAll(es));
    AppendChunk(k, es, e);
    AppendChunk(k, out, e');
    AppendChunk(k, [], e);
    AppendChunk(k, [], e');
    assert [] + [e] == [e] && [] + [e'] == [e'];
    assert EraseAll([e']) == [Erase(e')];
  }

  lemma ProgressNested(k: Package, s: State, t: State, fr: seq<Frame>, errs: set<Path>, es: seq<Expr>, out: seq<Expr>)
    requires fr != [] && Progress(k, s, t, fr, errs, es, out)
    ensures Progress(k, s, t, fr, errs, [Nested(es)], [Nested(out)]) == true
  {
    hide Inv;
    One(k, Nested(es));
    One(k, Nested(out));
  }

  /** The arguments of an import were searched, and the import leads nowhere. */
  lemma ProgressNoTarget(k: Package, s: State, t: State, fr: seq<Frame>, errs: set<Path>, args: seq<Expr>, args': seq<Expr>)
    requires fr != [] && Progress(k, s, t, fr, errs, args, args')
    ensures Progress(k, s, t, fr, errs, [Import(args, None)], [Import(args', None)]) == true
  {
    hide Inv;
    One(k, Import(args, None));
    One(k, Import(args', None));
  }

  /** The arguments of an import were searched, and then its target was dealt with. */
  lemma ProgressImport(k: Package, s: State, t: State, r: State, fr: seq<Frame>, e1: set<Path>, e2: set<Path>,
                       args: seq<Expr>, args': seq<Expr>, v: Path, out: Expr)
    requires fr != [] && Progress(k, s, t, fr, e1, args, args')
    requires Visited(k, t, r, WithErrs(fr, e1), e2, Import(args', Some(v)), out)
    ensures Progress(k, s, r, fr, e1 + e2, [Import(args, Some(v))], [out]) == true
  {
    hide Inv;
    WithErrsTwice(fr, e1, e2);
    One(k, Import(args, Some(v)));
    One(k, out);
    GrownTrans(s, t, r, fr, e1);
    HandledMonotone(t, r, fr, e1, e1 + e2, TargetsAll(args));
  }

  lemma One(k: Package, e: Expr)
    ensures TargetsAll([e]) == Targets(e) && EraseAll([e]) == [Erase(e)] && InlinedAll([e]) == Inlined(e)
    ensures WellInlinedAll(k, [e]) <==> WellInlined(k, e)
  {
  }

  // ---- the ways an import is dealt with ----

  lemma VisitRefused(k: Package, s: State, fr: seq<Frame>, call: Expr)
    requires fr != [] && Inv(k, s, fr) && call.Import? && call.target.Some? && WellInlined(k, call)
    requires call.target.value in Open(fr) && call.target.value != Top(fr).path
    requires call.target.value in TargetsAll(k.Source(Top(fr).path))
    ensures Visited(k, s, s, fr, {call.target.value}, call, call) == true
  {
    hide Inv;
    Refuse(k, s, fr, call.target.value);
  }

  lemma VisitSelf(k: Package, s: State, t: State, fr: seq<Frame>, call: Expr)
    requires fr != [] && Inv(k, s, fr) && call.Import? && call.target == Some(Top(fr).path) && WellInlined(k, call)
    requires t == s.(g := AddNode(s.g, Top(fr).path))
    ensures Visited(k, s, t, fr, {}, call, call) == true
  {
    hide Inv;
    NoErrs(fr);
    SelfImport(k, s, t, fr);
  }

  lemma VisitFinished(k: Package, s: State, t: State, fr: seq<Frame>, call: Expr)
    requires fr != [] && Inv(k, s, fr) && call.Import? && call.target.Some? && WellInlined(k, call)
    requires call.target.value in Done(s) && call.target.value in TargetsAll(k.Source(Top(fr).path))
    requires t == s.(g := AddEdge(s.g, Top(fr).path, call.target.value))
    ensures Visited(k, s, t, fr, {}, call, call) == true
  {
    hide Inv;
    NoErrs(fr);
    AcceptFinished(k, s, t, fr, call.target.value);
  }

  /** The state right after the edge to an unseen module was accepted. */
  ghost predicate Entered(s: State, s1: State, fr: seq<Frame>, v: Path)
    requires fr != []
  {
    && s1.asts == s.asts && s1.inlines == s.inlines && Extends(s1.g, s.g)
    && v in Deps(s1.g, Top(fr).path)
  }

  lemma VisitBuilt(k: Package, s: State, s1: State, s2: State, t: State, fr: seq<Frame>, call: Expr, ast: seq<Expr>)
    requires fr != [] && Inv(k, s, fr) && call.Import? && call.target.Some? && WellInlined(k, call)
    requires call.target.value !in Done(s) + Open(fr) && Entered(s, s1, fr, call.target.value)
    requires Progress(k, s1, s2, fr + [Frame(call.target.value, {})], {}, k.Source(call.target.value), ast)
    requires t == s2.(asts := s2.asts[call.target.value := ast])
    ensures Visited(k, s, t, fr, {}, call, call) == true
  {
    hide Inv;
    var v := call.target.value;
    NoErrs(fr);
    NoErrs(fr + [Frame(v, {})]);
    VisitClean(k, s, s1, s2, t, fr, v, ast);
    DepsKept(s1, s2, t, fr, v, Top(fr).path);
  }

  lemma VisitInlinedCall(k: Package, s: State, s1: State, s2: State, t: State, fr: seq<Frame>, call: Expr,
                         ast: seq<Expr>, errs: set<Path>)
    requires fr != [] && Inv(k, s, fr) && call.Import? && call.target.Some? && WellInlined(k, call)
    requires forall p :: p in Inlined(call) ==> InlinedInto(s.inlines, p, Top(fr).path)
    requires call.target.value !in Done(s) + Open(fr) && Entered(s, s1, fr, call.target.value)
    requires errs != {}
    requires Progress(k, s1, s2, fr + [Frame(call.target.value, {})], errs, k.Source(call.target.value), ast)
    requires t == s2.(inlines := s2.inlines[call.target.value := Top(fr).path])
    ensures Visited(k, s, t, fr, errs - {Top(fr).path}, call, InlineModule(call.target.value, ast, call)) == true
  {
    hide Inv;
    var v := call.target.value;
    assert {} + errs == errs;
    assert WithErrs(fr + [Frame(v, {})], errs) == fr + [Frame(v, errs)];
    VisitInlined(k, s, s1, s2, t, fr, Frame(v, errs), ast);
    DepsKept(s1, s2, t, fr, v, Top(fr).path);
    var out := InlineModule(v, ast, call);
    assert Inlined(out) == {v} + InlinedAll(ast) + Inlined(call);
    forall p
      ensures InlinedInto(t.inlines, p, Top(fr).path) <==>
                InlinedInto(s.inlines, p, Top(fr).path) || p in Inlined(out) - Inlined(call)
    {
    }
  }

  lemma DepsKept(s1: State, s2: State, t: State, fr: seq<Frame>, v: Path, u: Path)
    requires fr != [] && Grown(s1, s2, fr + [Frame(v, {})]) && t.g == s2.g
    ensures Deps(s1.g, u) <= Deps(t.g, u)
  {
  }
}
