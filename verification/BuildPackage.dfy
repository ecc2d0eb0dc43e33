/**
 The package builder: it first resolves imports depth-first, inlining modules that lie on a cycle,
 then launches the analysis of every module that is built on its own, dependencies first.
 */
module BuildPackage {
  import opened Digraph
  import opened TopoSort
  import opened ModuleGraphs
  import opened Wrappers
  import opened Imports
  import opened Resolution
  import opened Outcome
  import opened Launching

  function SetOf(s: seq<Path>): (r: set<Path>)
    ensures forall x :: x in r <==> x in s
    ensures s == [] <==> r == {}
  {
    var r := set x | x in s;
    assert s != [] ==> s[0] in r;
    r
  }

  lemma SetOfConcat(s: seq<Path>, t: seq<Path>)
    ensures SetOf(s + t) == SetOf(s) + SetOf(t)
  {
  }

  /** The cycle errors that do not concern `from`. */
  function Retain(errs: seq<Path>, from: Path): (r: seq<Path>)
    ensures SetOf(r) == SetOf(errs) - {from}
  {
    if errs == [] then [] else
      assert errs == [errs[0]] + errs[1..];
      SetOfConcat([errs[0]], errs[1..]);
      var rest := Retain(errs[1..], from);
      SetOfConcat([errs[0]], rest);
      if errs[0] == from then rest else [errs[0]] + rest
  }

  /** The modules that could still be entered: what makes resolution terminate on cyclic imports. */
  function Unseen(k: Package, s: State, fr: seq<Frame>): set<Path> {
    k.Universe() - Done(s) - Open(fr)
  }

  lemma UnseenShrinks(k: Package, s: State, t: State, fr: seq<Frame>, errs: set<Path>)
    requires fr != [] && Grown(s, t, fr)
    ensures Unseen(k, t, WithErrs(fr, errs)) <= Unseen(k, s, fr)
  {
    OpenWithErrs(fr, errs);
  }

  /** Every module entered so far was parsed once, and no other. */
  ghost predicate ParsedOnce(k: Package, s: State, fr: seq<Frame>, parsed: seq<Path>) {
    && (forall i, j :: 0 <= i < j < |parsed| ==> parsed[i] != parsed[j])
    && SetOf(parsed) == Done(s) + Open(fr) - {k.root}
  }

  lemma LastAndRest<T>(s: seq<T>)
    requires s != []
    ensures s == s[..|s| - 1] + [s[|s| - 1]]
  {
  }

  lemma TakeOne<T>(s: seq<T>, i: nat)
    requires i < |s|
    ensures s[..i + 1] == s[..i] + [s[i]]
  {
  }

  /** The modules launched from `from` on by calls of exactly that depth. */
  ghost function Direct(log: seq<Entry>, depths: seq<nat>, from: nat, depth: nat): set<Path>
    requires |log| == |depths|
  {
    set i | from <= i < |log| && depths[i] == depth :: log[i].path
  }

  lemma DirectOneMore(log: seq<Entry>, depths: seq<nat>, from: nat, depth: nat, e: Entry)
    requires |log| == |depths| && from <= |log|
    ensures Direct(log + [e], depths + [depth], from, depth) == Direct(log, depths, from, depth) + {e.path}
  {
    var (log', depths') := (log + [e], depths + [depth]);
    forall i | from <= i < |log|
      ensures log'[i] == log[i] && depths'[i] == depths[i]
    {
    }
    assert log'[|log|] == e && depths'[|log|] == depth;
  }

  lemma DirectMoreNested(log: seq<Entry>, depths: seq<nat>, log': seq<Entry>, depths': seq<nat>, from: nat, depth: nat)
    requires |log| == |depths| && |log'| == |depths'| && log <= log' && depths <= depths'
    requires forall i :: |depths| <= i < |depths'| ==> depths'[i] > depth
    ensures Direct(log', depths', from, depth) == Direct(log, depths, from, depth)
  {
    forall i | from <= i < |log|
      ensures log'[i] == log[i] && depths'[i] == depths[i]
    {
    }
  }

  /** `deps` are the modules launched directly since the log had length `n`; deeper launches come with inlined modules only. */
  ghost predicate Counted(n: nat, log: seq<Entry>, depths: seq<nat>, depth: nat, flat: bool, deps: set<Path>) {
    && |log| == |depths| && n <= |log| && deps == Direct(log, depths, n, depth)
    && forall i :: n <= i < |depths| ==> depths[i] >= depth && (flat ==> depths[i] == depth)
  }

  /** Handling an entry launches it directly, or launches others deeper down. */
  ghost predicate EntryHandled(log: seq<Entry>, depths: seq<nat>, log': seq<Entry>, depths': seq<nat>, depth: nat, flat: bool,
                           direct: Option<Path>) {
    && |log| == |depths| && |log'| == |depths'| && log <= log' && depths <= depths'
    && (direct.Some? ==> |log'| == |log| + 1 && log'[|log|].path == direct.value && depths' == depths + [depth])
    && (direct.None? ==> forall i :: |depths| <= i < |depths'| ==> depths'[i] > depth)
    && (direct.None? && flat ==> depths' == depths)
  }

  lemma CountedStart(log: seq<Entry>, depths: seq<nat>, depth: nat, flat: bool)
    requires |log| == |depths|
    ensures Counted(|log|, log, depths, depth, flat, {}) == true
  {
    assert Direct(log, depths, |log|, depth) == {};
  }

  lemma CountedOneMore(n: nat, log: seq<Entry>, depths: seq<nat>, log': seq<Entry>, depths': seq<nat>, depth: nat, flat: bool,
                       deps: set<Path>, direct: Option<Path>)
    requires Counted(n, log, depths, depth, flat, deps) && EntryHandled(log, depths, log', depths', depth, flat, direct)
    ensures Counted(n, log', depths', depth, flat, if direct.Some? then deps + {direct.value} else deps) == true
  {
    hide Direct;
    if direct.Some? {
      assert log' == log + [log'[|log|]];
      DirectOneMore(log, depths, n, depth, log'[|log|]);
    } else {
      DirectMoreNested(log, depths, log', depths', n, depth);
    }
  }

  lemma LaunchedDeeper(log: seq<Entry>, depths: seq<nat>, log': seq<Entry>, depths': seq<nat>, depth: nat, flat: bool)
    requires |log| == |depths| && |log'| == |depths'| && log <= log' && depths <= depths'
    requires (forall i :: |depths| <= i < |depths'| ==> depths'[i] > depth) && (flat ==> depths' == depths)
    ensures EntryHandled(log, depths, log', depths', depth, flat, None) == true
  {
  }

  lemma LaunchedNested(log: seq<Entry>, depths: seq<nat>, log': seq<Entry>, depths': seq<nat>, depth: nat, flat: bool, deps: set<Path>)
    requires |log| == |depths| && log <= log' && depths <= depths' && depth > 0 && !flat
    requires Counted(|log|, log', depths', depth, flat, deps)
    ensures EntryHandled(log, depths, log', depths', depth - 1, flat, None) == true
  {
    hide Direct;
  }

  lemma LaunchedDirectly(log: seq<Entry>, depths: seq<nat>, e: Entry, depth: nat, flat: bool)
    requires |log| == |depths|
    ensures EntryHandled(log, depths, log + [e], depths + [depth], depth, flat, Some(e.path)) == true
  {
  }

  /** With every module launched once, those launched directly are all exactly if none was launched deeper. */
  lemma DirectIsAllIff(log: seq<Entry>, depths: seq<nat>, flat: bool, deps: set<Path>)
    requires Counted(0, log, depths, 0, flat, deps) && forall i, j :: 0 <= i < j < |log| ==> log[i].path != log[j].path
    ensures |log| == |depths| && deps == Direct(log, depths, 0, 0)
    ensures (forall p :: Launched(log, p) ==> p in deps) <==> forall i :: 0 <= i < |depths| ==> depths[i] == 0
    ensures flat ==> forall i :: 0 <= i < |depths| ==> depths[i] == 0
  {
    if i :| 0 <= i < |log| && depths[i] != 0 {
      assert log[i] in log && Launched(log, log[i].path);
      assert log[i].path !in Direct(log, depths, 0, 0);
    } else {
      forall p | Launched(log, p)
        ensures p in Direct(log, depths, 0, 0)
      {
        var e :| e in log && e.path == p;
        var i :| 0 <= i < |log| && log[i] == e;
      }
    }
  }

  class PackageBuilder {
    const pkg: Package
    const graph: ModuleGraph
    var asts: map<Path, seq<Expr>>
    var inlines: map<Path, Path>
    var cyclic: seq<Path>
    var parsed: seq<Path>
    var promises: set<Path>
    var launched: seq<Entry>
    var modCache: set<Path>
    /** For every launch, how many inlined modules were being handled further out. */
    ghost var depths: seq<nat>

    ghost function St(): State
      reads this, graph
      requires graph.Valid()
    {
      State(graph.Abs(), asts, inlines)
    }

    ghost predicate Ready(fr: seq<Frame>)
      reads this, graph
    {
      graph.Valid() && pkg.Parsed() && Inv(pkg, St(), fr) && ParsedOnce(pkg, St(), fr, parsed)
    }

    constructor (pkg: Package)
      ensures this.pkg == pkg && fresh(graph) && graph.Valid()
      ensures St() == State(map[], map[], map[]) && parsed == []
      ensures promises == {} && launched == [] && depths == [] && modCache == {}
    {
      this.pkg := pkg;
      graph := new ModuleGraph();
      asts, inlines, cyclic, parsed := map[], map[], [], [];
      promises, launched, depths, modCache := {}, [], [], {};
    }

    method Parse(path: Path) returns (ast: seq<Expr>)
      modifies this`parsed
      ensures parsed == old(parsed) + [path]
      ensures ast == if path in pkg.files then pkg.files[path] else []
    {
      parsed := parsed + [path];
      return if path in pkg.files then pkg.files[path] else [];
    }

    /** Searches the imports of the module `from` in order; every chunk is searched, whatever was found before. */
    method Resolve(from: Path, es: seq<Expr>, ghost fr: seq<Frame>) returns (out: seq<Expr>, errs: seq<Path>)
      requires fr != [] && Ready(fr) && from == Top(fr).path
      requires PlainAll(es) && TargetsAll(es) <= TargetsAll(pkg.Source(from))
      modifies this`asts, this`inlines, this`cyclic, this`parsed, graph
      ensures Ready(WithErrs(fr, SetOf(errs))) == true
      ensures Progress(pkg, old(St()), St(), fr, SetOf(errs), es, out) == true
      decreases Unseen(pkg, St(), fr), es, 0
    {
      hide Inv;
      out, errs := [], [];
      NoProgress(pkg, St(), fr);
      NoErrs(fr);
      assert SetOf(errs) == {};
      for i := 0 to |es|
        invariant Ready(WithErrs(fr, SetOf(errs))) == true
        invariant Progress(pkg, old(St()), St(), fr, SetOf(errs), es[..i], out) == true
      {
        var e := es[i];
        PartOfAll(es, i);
        ghost var mid := St();
        ghost var fi := WithErrs(fr, SetOf(errs));
        UnseenShrinks(pkg, old(St()), mid, fr, SetOf(errs));
        var e', more := CheckImport(from, e, fi);
        ProgressAppend(pkg, old(St()), mid, St(), fr, SetOf(errs), SetOf(more), es[..i], out, e, e');
        SetOfConcat(errs, more);
        WithErrsTwice(fr, SetOf(errs), SetOf(more));
        TakeOne(es, i);
        out, errs := out + [e'], errs + more;
      }
      assert es[..|es|] == es;
    }

    /** Searches one expression; an import of a file is registered after its own arguments were searched. */
    method CheckImport(from: Path, e: Expr, ghost fr: seq<Frame>) returns (out: Expr, errs: seq<Path>)
      requires fr != [] && Ready(fr) && from == Top(fr).path
      requires Plain(e) && Targets(e) <= TargetsAll(pkg.Source(from))
      modifies this`asts, this`inlines, this`cyclic, this`parsed, graph
      ensures Ready(WithErrs(fr, SetOf(errs))) == true
      ensures Progress(pkg, old(St()), St(), fr, SetOf(errs), [e], [out]) == true
      decreases Unseen(pkg, St(), fr), e, 2
    {
      hide Inv;
      match e
      case Nested(children) =>
        var chunks, errs' := Resolve(from, children, fr);
        ProgressNested(pkg, old(St()), St(), fr, SetOf(errs'), children, chunks);
        return Nested(chunks), errs';
      case Import(args, target) =>
        var args', errs' := Resolve(from, args, fr);
        ghost var mid := St();
        if target.None? {
          ProgressNoTarget(pkg, old(St()), mid, fr, SetOf(errs'), args, args');
          return Import(args', None), errs';
        }
        UnseenShrinks(pkg, old(St()), mid, fr, SetOf(errs'));
        var call, more := Register(from, Import(args', target), WithErrs(fr, SetOf(errs')), e);
        ProgressImport(pkg, old(St()), mid, St(), fr, SetOf(errs'), SetOf(more), args, args', target.value, call);
        SetOfConcat(errs', more);
        WithErrsTwice(fr, SetOf(errs'), SetOf(more));
        return call, errs' + more;
      case Leaf =>
        ProgressLeaf(pkg, St(), fr);
        NoErrs(fr);
        assert SetOf([]) == {};
        return e, [];
    }

    /** Registers the dependency of `from` on an imported file, and enters that file if it is new. */
    method Register(from: Path, call: Expr, ghost fr: seq<Frame>, ghost e: Expr) returns (out: Expr, errs: seq<Path>)
      requires fr != [] && Ready(fr) && from == Top(fr).path
      requires call.Import? && call.target.Some? && WellInlined(pkg, call)
      requires forall p :: p in Inlined(call) ==> InlinedInto(inlines, p, from)
      requires call.target.value in TargetsAll(pkg.Source(from))
      modifies this`asts, this`inlines, this`cyclic, this`parsed, graph
      ensures Ready(WithErrs(fr, SetOf(errs))) == true
      ensures Visited(pkg, old(St()), St(), fr, SetOf(errs), call, out) == true
      decreases Unseen(pkg, St(), fr), e, 1
    {
      hide Inv;
      var path := call.target.value;
      ghost var s := St();
      NoErrs(fr);
      assert SetOf([]) == {} && SetOf([path]) == {path};
      if path != from {
        EdgeAnswer(pkg, s, fr, path);
      }
      graph.AddNodeIfNone(path);
      var ok := graph.IncRef(from, path);
      if !ok {
        VisitRefused(pkg, s, fr, call);
        ParsedOnceAgain(pkg, s, fr, {path}, parsed);
        return call, [path];
      }
      if path == from {
        VisitSelf(pkg, s, St(), fr, call);
        return call, [];
      }
      if path in inlines || path in asts {
        VisitFinished(pkg, s, St(), fr, call);
        return call, [];
      }
      out, errs := Enter(from, call, s, fr, e);
    }

    /** Enters a file for the first time; `s` is the state before its edge was accepted. */
    method Enter(from: Path, call: Expr, ghost s: State, ghost fr: seq<Frame>, ghost e: Expr)
      returns (out: Expr, errs: seq<Path>)
      requires fr != [] && from == Top(fr).path && graph.Valid() && pkg.Parsed()
      requires call.Import? && call.target.Some? && WellInlined(pkg, call)
      requires forall p :: p in Inlined(call) ==> InlinedInto(s.inlines, p, from)
      requires call.target.value in TargetsAll(pkg.Source(from))
      requires Inv(pkg, s, fr) && ParsedOnce(pkg, s, fr, parsed)
      requires call.target.value !in Done(s) + Open(fr)
      requires St() == s.(g := AddEdge(AddNode(s.g, call.target.value), from, call.target.value))
      modifies this`asts, this`inlines, this`cyclic, this`parsed, graph
      ensures Ready(WithErrs(fr, SetOf(errs))) == true
      ensures Visited(pkg, s, St(), fr, SetOf(errs), call, out) == true
      decreases Unseen(pkg, s, fr), e, 0
    {
      hide Inv;
      var path := call.target.value;
      ghost var s1, fv := St(), fr + [Frame(path, {})];
      Push(pkg, s, s1, fr, path);
      EntryIsNew(pkg, s, s1, fr, path, parsed);
      var ast := Parse(path);
      SourceIsParsed(pkg, path);
      var ast', more := Resolve(path, ast, fv);
      out, errs := Leave(from, call, ast', more, s, s1, fr);
    }

    /** Inlines a searched file into its importer if it reported cycle errors, or keeps it to be built. */
    method Leave(from: Path, call: Expr, ast: seq<Expr>, more: seq<Path>, ghost s: State, ghost s1: State, ghost fr: seq<Frame>)
      returns (out: Expr, errs: seq<Path>)
      requires fr != [] && from == Top(fr).path && graph.Valid() && pkg.Parsed() && Inv(pkg, s, fr)
      requires call.Import? && call.target.Some? && WellInlined(pkg, call)
      requires forall p :: p in Inlined(call) ==> InlinedInto(s.inlines, p, from)
      requires call.target.value !in Done(s) + Open(fr) && Entered(s, s1, fr, call.target.value)
      requires Progress(pkg, s1, St(), fr + [Frame(call.target.value, {})], SetOf(more), pkg.Source(call.target.value), ast)
      requires ParsedOnce(pkg, St(), WithErrs(fr + [Frame(call.target.value, {})], SetOf(more)), parsed)
      modifies this`asts, this`inlines, this`cyclic
      ensures Ready(WithErrs(fr, SetOf(errs))) == true
      ensures Visited(pkg, s, St(), fr, SetOf(errs), call, out) == true
    {
      hide Inv;
      hide ParsedOnce;
      hide Progress;
      hide Entered;
      var path := call.target.value;
      ghost var s2 := St();
      if more != [] {
        inlines := inlines[path := from];
        out := InlineModule(path, ast, call);
        errs := Retain(more, from);
        VisitInlinedCall(pkg, s, s1, s2, St(), fr, call, ast, SetOf(more));
        ExitIsParsed(pkg, s2, St(), fr, path, SetOf(more), SetOf(errs), parsed);
        if errs == [] {
          cyclic := cyclic + [from];
        }
        return;
      }
      asts := asts[path := ast];
      assert SetOf([]) == {};
      VisitBuilt(pkg, s, s1, s2, St(), fr, call, ast);
      ExitIsParsed(pkg, s2, St(), fr, path, {}, {}, parsed);
      return call, [];
    }

    // ---- launching ----

    ghost function Ln(left: ModuleGraph): Launch
      reads this, left
      requires left.Valid()
    {
      Launch(left.Abs(), asts, promises, launched, modCache)
    }

    /** Launched analyses may finish at any time and put what they analysed into the module cache. */
    method Observe()
      modifies this`modCache
      ensures forall p :: p in modCache ==> p in old(modCache) || Analysed(launched, p)
    {
      var finished: set<Path> := *;
      modCache := modCache + set p | p in finished && Analysed(launched, p);
    }

    /** Launches an analysis, unless the module is known already. */
    method StartAnalysisProcess(ast: seq<Expr>, path: Path, ghost depth: nat)
      modifies this`promises, this`launched, this`depths
      ensures path in old(promises) + old(modCache) ==>
                promises == old(promises) && launched == old(launched) && depths == old(depths)
      ensures path !in old(promises) + old(modCache) ==>
                && promises == old(promises) + {path}
                && launched == old(launched) + [Entry(path, ast)] && depths == old(depths) + [depth]
    {
      if path in promises || path in modCache {
        return;
      }
      launched := launched + [Entry(path, ast)];
      depths := depths + [depth];
      promises := promises + {path};
    }

    method IntoVec(s: set<Path>) returns (v: seq<Path>)
      ensures forall p :: p in v <==> p in s
    {
      v := [];
      var rest := s;
      while rest != {}
        invariant forall p :: p in s <==> p in v || p in rest
      {
        var p :| p in rest;
        rest := rest - {p};
        v := v + [p];
      }
    }

    /**
     Handles everything `path` depends on that is left in the graph, rotating the worklist
     until its last entry has no dependency left. `busy` are the inlined modules being handled further out.
     */
    method BuildDepsAndModule(path: Path, left: ModuleGraph, ghost plan: Plan, ghost busy: set<Path>) returns (deps: set<Path>)
      requires left.Valid() && inlines == plan.inlines && LInv(plan, Ln(left), busy) && |depths| == |launched|
      modifies this`asts, this`promises, this`launched, this`depths, this`modCache, left
      ensures left.Valid() && LInv(plan, Ln(left), busy) == true
      ensures left.Abs().Keys <= old(left.Abs().Keys) && old(launched) <= launched
      ensures forall p :: Reaches(old(left.Abs()), path, p) ==> p !in left.Abs()
      ensures old(depths) <= depths && Counted(|old(launched)|, launched, depths, |busy|, plan.inlines == map[], deps) == true
      decreases |left.Abs().Keys| + 1, 0
    {
      hide UniqueIds;
      hide Indexes;
      hide AsGraph;
      hide LInv;
      hide ListReady;
      hide ListClosed;
      hide Reaches;
      hide Launched;
      hide Analysed;
      hide Distance;
      hide Counted;
      hide EntryHandled;
      deps := {};
      CountedStart(launched, depths, |busy|, plan.inlines == map[]);
      var found := left.Ancestors(path);
      var list := IntoVec(found);
      InitialList(plan, Ln(left), busy, path, list);
      while list != []
        invariant left.Valid() && LInv(plan, Ln(left), busy) == true
        invariant left.Abs().Keys <= old(left.Abs().Keys) && old(launched) <= launched
        invariant ListReady(plan, Ln(left), busy, list) == true
        invariant forall p :: Reaches(old(left.Abs()), path, p) ==> p in list || p !in left.Abs()
        invariant |depths| == |launched| && old(depths) <= depths
        invariant Counted(|old(launched)|, launched, depths, |busy|, plan.inlines == map[], deps) == true
        decreases |left.Abs().Keys|, |list|, Distance(left.Abs(), list)
      {
        ghost var before := left.Abs();
        var n := |list| - 1;
        var ancestor, rest := list[n], list[..n];
        LastAndRest(list);
        var parents := left.Parents(ancestor);
        if parents.None? || parents.value == {} {
          ghost var l := Ln(left);
          LastEntry(plan, l, busy, list);
          ghost var ds := depths;
          var direct := HandleEntry(ancestor, left, plan, busy);
          CountedOneMore(|old(launched)|, l.launched, ds, launched, depths, |busy|, plan.inlines == map[], deps,
            if direct then Some(ancestor) else None);
          if direct {
            deps := deps + {ancestor};
          }
          StillReady(plan, l, Ln(left), busy, rest, ancestor);
          KeysShrink(left.Abs().Keys, before.Keys);
          list := rest;
        } else {
          ghost var i := ReadyHandleable(plan, Ln(left), busy, list);
          RotationCloser(left.Abs(), list, i);
          ReadyRotated(plan, Ln(left), busy, rest, ancestor);
          list := [ancestor] + rest;
        }
      }
    }

    /** Handles one entry of the worklist; says whether it was launched here. */
    method HandleEntry(ancestor: Path, left: ModuleGraph, ghost plan: Plan, ghost busy: set<Path>) returns (direct: bool)
      requires left.Valid() && inlines == plan.inlines && LInv(plan, Ln(left), busy)
      requires Handleable(left.Abs(), ancestor)
      requires ancestor in plan.asts.Keys + plan.inlines.Keys && ancestor !in busy && |depths| == |launched|
      modifies this`asts, this`promises, this`launched, this`depths, this`modCache, left
      ensures left.Valid() && LInv(plan, Ln(left), busy) == true
      ensures left.Abs().Keys <= old(left.Abs().Keys) - {ancestor} && old(launched) <= launched
      ensures |depths| == |launched| && old(depths) <= depths
      ensures EntryHandled(old(launched), old(depths), launched, depths, |busy|, plan.inlines == map[],
                if direct then Some(ancestor) else None) == true
      decreases |left.Abs().Keys|, 2
    {
      hide UniqueIds;
      hide Indexes;
      hide AsGraph;
      hide LInv;
      hide Launched;
      hide Analysed;
      hide Reaches;
      hide EntryHandled;
      ObserveWhile(left, plan, busy);
      ghost var l := Ln(left);
      if ancestor in l.g || ancestor in l.asts {
        HandledIsNew(plan, l, busy, ancestor);
      }
      left.Remove(ancestor);
      if ancestor in asts {
        LaunchEntry(ancestor, left, plan, busy, l);
        return true;
      }
      if ancestor in l.g {
        KeysShrink(left.Abs().Keys, l.g.Keys);
        TakeInlined(plan, l, Ln(left), busy, ancestor);
      } else {
        StaleEntry(plan, l, busy, ancestor);
      }
      BuildInlinedModule(ancestor, left, plan, busy);
      return false;
    }

    /** Launches a module just taken off the graph; `l` is the state before that. */
    method LaunchEntry(p: Path, left: ModuleGraph, ghost plan: Plan, ghost busy: set<Path>, ghost l: Launch)
      requires left.Valid() && LInv(plan, l, busy) && p in l.asts && p in l.g && l.g[p] == {}
      requires p !in l.promises && p !in l.cache
      requires Ln(left) == l.(g := Without(l.g, p))
      requires |depths| == |launched|
      modifies this`asts, this`promises, this`launched, this`depths
      ensures LInv(plan, Ln(left), busy) == true
      ensures l.launched <= launched && |depths| == |launched| && old(depths) <= depths
      ensures EntryHandled(l.launched, old(depths), launched, depths, |busy|, plan.inlines == map[], Some(p)) == true
    {
      hide LInv;
      hide Launched;
      var ast := asts[p];
      asts := asts - {p};
      StartAnalysisProcess(ast, p, |busy|);
      TakeAst(plan, l, Ln(left), busy, p);
      LaunchedDirectly(l.launched, old(depths), Entry(p, ast), |busy|, plan.inlines == map[]);
    }

    method ObserveWhile(left: ModuleGraph, ghost plan: Plan, ghost busy: set<Path>)
      requires left.Valid() && LInv(plan, Ln(left), busy)
      modifies this`modCache
      ensures LInv(plan, Ln(left), busy) == true
      ensures forall p :: p in modCache ==> p in old(modCache) || Analysed(launched, p)
    {
      hide LInv;
      ghost var l := Ln(left);
      Observe();
      ObservedMore(plan, l, Ln(left), busy);
    }

    /** An inlined module is analysed with its inliner, so what the inliner depends on comes first. */
    method BuildInlinedModule(path: Path, left: ModuleGraph, ghost plan: Plan, ghost busy: set<Path>)
      requires left.Valid() && inlines == plan.inlines && LInv(plan, Ln(left), busy + {path})
      requires path !in left.Abs() && path !in busy && |depths| == |launched|
      requires path in promises || (path in plan.inlines && path !in modCache && !Analysed(launched, path))
      modifies this`asts, this`promises, this`launched, this`depths, this`modCache, left
      ensures left.Valid() && LInv(plan, Ln(left), busy) == true
      ensures left.Abs().Keys <= old(left.Abs().Keys) && old(launched) <= launched
      ensures |depths| == |launched| && old(depths) <= depths
      ensures EntryHandled(old(launched), old(depths), launched, depths, |busy|, plan.inlines == map[], None) == true
      decreases if path in promises then 0 else |left.Abs().Keys| + 1, 1
    {
      hide LInv;
      ObserveWhile(left, plan, busy + {path});
      if path in modCache || path in promises {
        assert path in promises;
        JoinedAlready(plan, Ln(left), busy, path);
        LaunchedDeeper(launched, depths, launched, depths, |busy|, plan.inlines == map[]);
      } else if path in inlines {
        var inliner := inlines[path];
        var nested := BuildDepsAndModule(inliner, left, plan, busy + {path});
        LaunchedNested(old(launched), old(depths), launched, depths, |busy + {path}|, plan.inlines == map[], nested);
        ghost var l := Ln(left);
        BusyIsGone(plan, l, busy, path);
        promises := promises + {path};
        Joined(plan, l, Ln(left), busy, path);
      } else {
        assert false;
      }
    }

    /** The log of launches `plan` asks for: every built module once, with its own tree, dependencies first. */
    ghost predicate LaunchedAll(plan: Plan)
      reads this
    {
      && (forall p :: Launched(launched, p) <==> p in plan.asts)
      && (forall i, j :: 0 <= i < j < |launched| ==> launched[i].path != launched[j].path)
      && (forall e :: e in launched ==> e.path in plan.asts && e.ast == plan.asts[e.path])
      && (forall i, d :: 0 <= i < |launched| && d in plan.asts && Reaches(plan.g, launched[i].path, d) ==>
            exists j :: 0 <= j < i && launched[j].path == d)
      && (forall p :: Reaches(plan.g, plan.root, p) ==> p in promises)
    }

    method Execute(ghost plan: Plan) returns (deps: set<Path>)
      requires graph.Valid() && Sound(plan) && plan == Plan(graph.Abs(), asts, inlines, pkg.root)
      requires promises == {} && launched == [] && depths == [] && modCache == {}
      modifies this
      ensures LaunchedAll(plan) == true
      ensures |depths| == |launched| && deps == Direct(launched, depths, 0, 0)
      ensures (forall p :: Launched(launched, p) ==> p in deps) <==> forall i :: 0 <= i < |depths| ==> depths[i] == 0
      ensures plan.inlines == map[] ==> forall i :: 0 <= i < |depths| ==> depths[i] == 0
      ensures parsed == old(parsed)
      ensures asts == map[] && inlines == map[] && cyclic == []
    {
      hide LInv;
      hide Sound;
      hide UniqueIds;
      hide Indexes;
      hide AsGraph;
      hide Counted;
      hide Direct;
      hide Launched;
      InitiallyLInv(plan);
      var left := new ModuleGraph.CloneOf(graph);
      deps := BuildDepsAndModule(pkg.root, left, plan, {});
      EverythingLaunched(plan, Ln(left));
      assert asts == map[];
      DirectIsAllIff(launched, depths, plan.inlines == map[], deps);
      Finalize();
    }

    /** The builder can be used for the next build. */
    method Finalize()
      modifies this`asts, this`inlines, this`cyclic
      ensures asts == map[] && inlines == map[] && cyclic == []
    {
      cyclic, inlines, asts := [], map[], map[];
    }

    /**
     Resolves the main module and launches what it needs. `s` is what resolution left: no error,
     every import settled, every file parsed once; then everything is launched in order.
     */
    method BuildRoot() returns (main: seq<Expr>, deps: set<Path>, ghost s: State)
      requires graph.Valid() && pkg.Parsed() && St() == State(map[], map[], map[]) && parsed == []
      requires promises == {} && launched == [] && depths == [] && modCache == {}
      modifies this, graph
      ensures RootSearched(pkg, s, {}) == true && AllSettled(pkg, s) == true
      ensures EraseAll(main) == pkg.main && WellInlinedAll(pkg, main)
      ensures forall p :: p in InlinedAll(main) <==> InlinedInto(s.inlines, p, pkg.root)
      ensures forall i, j :: 0 <= i < j < |parsed| ==> parsed[i] != parsed[j]
      ensures forall p :: p in parsed <==> p != pkg.root && Reaches(pkg.ImportGraph(), pkg.root, p)
      ensures LaunchedAll(Plan(s.g, s.asts, s.inlines, pkg.root)) == true
      ensures |depths| == |launched| && deps == Direct(launched, depths, 0, 0)
      ensures (forall p :: Launched(launched, p) ==> p in deps) <==> forall i :: 0 <= i < |depths| ==> depths[i] == 0
      ensures asts == map[] && inlines == map[] && cyclic == []
    {
      hide Inv;
      hide ParsedOnce;
      hide RootSearched;
      hide AllSettled;
      hide Sound;
      hide Progress;
      hide UniqueIds;
      hide Indexes;
      hide AsGraph;
      ghost var fr := [Frame(pkg.root, {})];
      MayStart(pkg, fr);
      var errs;
      main, errs := Resolve(pkg.root, pkg.main, fr);
      s := St();
      RootDone(pkg, s, fr, SetOf(errs), main, parsed);
      assert errs == [];
      ParsedIffImported(pkg, s, parsed);
      EveryImportOfAllSettled(pkg, s);
      ResolvedIsSound(pkg, s);
      deps := Execute(Plan(s.g, s.asts, s.inlines, pkg.root));
    }
  }

  lemma MayStart(k: Package, fr: seq<Frame>)
    requires k.Parsed() && fr == [Frame(k.root, {})]
    ensures Inv(k, State(map[], map[], map[]), fr) && ParsedOnce(k, State(map[], map[], map[]), fr, [])
    ensures PlainAll(k.main) && k.Source(k.root) == k.main && Top(fr).path == k.root
  {
    hide Inv;
    InitiallyInv(k);
    OpenPush([], fr[0]);
    assert [] + fr == fr;
  }

  lemma RootDone(k: Package, s: State, fr: seq<Frame>, errs: set<Path>, main: seq<Expr>, parsed: seq<Path>)
    requires fr == [Frame(k.root, {})]
    requires Progress(k, State(map[], map[], map[]), s, fr, errs, k.main, main)
    requires ParsedOnce(k, s, WithErrs(fr, errs), parsed)
    ensures errs == {} && RootSearched(k, s, {}) == true
    ensures SetOf(parsed) == Done(s) && forall i, j :: 0 <= i < j < |parsed| ==> parsed[i] != parsed[j]
    ensures EraseAll(main) == k.main && WellInlinedAll(k, main)
    ensures forall p :: p in InlinedAll(main) <==> InlinedInto(s.inlines, p, k.root)
  {
    hide Inv;
    assert {} + errs == errs && WithErrs(fr, errs) == [Frame(k.root, errs)];
    NoErrorAtRoot(k, s, errs);
    OpenPush([], Frame(k.root, {}));
    assert [] + fr == fr;
    RootNotDone(k, s);
    forall p
      ensures !InlinedInto(map[], p, k.root)
    {
      if InlinedInto(map[], p, k.root) {
        var q := FirstStep(InlineGraph(map[]), p, k.root);
      }
    }
  }

  lemma ParsedIffImported(k: Package, s: State, parsed: seq<Path>)
    requires RootSearched(k, s, {}) && SetOf(parsed) == Done(s)
    ensures forall p :: p in parsed <==> p != k.root && Reaches(k.ImportGraph(), k.root, p)
  {
    hide RootSearched, Done, Reaches;
    forall p
      ensures p in parsed <==> p != k.root && Reaches(k.ImportGraph(), k.root, p)
    {
      FinishedIffImported(k, s, p);
      assert p in parsed <==> p in SetOf(parsed);
    }
  }

  lemma RootNotDone(k: Package, s: State)
    requires RootSearched(k, s, {})
    ensures k.root !in Done(s)
  {
  }

  /** Cycle errors do not change what has been parsed. */
  lemma ParsedOnceAgain(k: Package, s: State, fr: seq<Frame>, errs: set<Path>, parsed: seq<Path>)
    requires fr != [] && ParsedOnce(k, s, fr, parsed)
    ensures ParsedOnce(k, s, WithErrs(fr, errs), parsed)
  {
    OpenWithErrs(fr, errs);
  }

  lemma RootIsOpen(k: Package, s: State, fr: seq<Frame>)
    requires Inv(k, s, fr)
    ensures k.root in Open(fr)
  {
  }

  lemma SourceIsParsed(k: Package, p: Path)
    requires k.Parsed()
    ensures PlainAll(k.Source(p))
  {
  }

  /** Leaving a module, whether it is built or inlined, keeps what has been parsed. */
  lemma ExitIsParsed(k: Package, s: State, t: State, fr: seq<Frame>, v: Path, errs: set<Path>, more: set<Path>, parsed: seq<Path>)
    requires fr != [] && ParsedOnce(k, s, WithErrs(fr + [Frame(v, {})], errs), parsed)
    requires Done(t) == Done(s) + {v}
    ensures ParsedOnce(k, t, WithErrs(fr, more), parsed) == true
  {
    OpenWithErrs(fr + [Frame(v, {})], errs);
    OpenPush(fr, Frame(v, {}));
    OpenWithErrs(fr, more);
  }

  /** Entering an unseen file leaves fewer unseen files, and parses it for the first time. */
  lemma EntryIsNew(k: Package, s: State, t: State, fr: seq<Frame>, v: Path, parsed: seq<Path>)
    requires fr != [] && Inv(k, s, fr) && v !in Done(s) + Open(fr) && v in TargetsAll(k.Source(Top(fr).path))
    requires t.asts == s.asts && t.inlines == s.inlines
    requires ParsedOnce(k, s, fr, parsed)
    ensures ParsedOnce(k, t, fr + [Frame(v, {})], parsed + [v])
    ensures Unseen(k, t, fr + [Frame(v, {})]) < Unseen(k, s, fr)
  {
    hide Inv;
    OpenPush(fr, Frame(v, {}));
    SetOfConcat(parsed, [v]);
    RootIsOpen(k, s, fr);
    k.TargetsInUniverse(Top(fr).path);
    assert v in SetOf(parsed + [v]) && v !in SetOf(parsed);
    assert v in Unseen(k, s, fr);
  }

  lemma PartOfAll(es: seq<Expr>, i: nat)
    requires i < |es|
    ensures Targets(es[i]) <= TargetsAll(es)
    ensures PlainAll(es) ==> Plain(es[i])
  {
    if i > 0 {
      PartOfAll(es[1..], i - 1);
    }
  }
}
