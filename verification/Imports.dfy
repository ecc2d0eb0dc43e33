/**
 The part of a module's syntax tree that dependency resolution looks at, and what resolution
 is allowed to do to it: replace an import by an inline module that still carries the import.
 */
module Imports {
  import opened Digraph
  import opened ModuleGraphs
  import opened Wrappers

  /**
   `Nested` is any expression whose parts are searched in order (calls, definitions, classes, lambdas, records).
   The target of an `Import` is the file its literal argument resolves to, if any.
   */
  datatype Expr =
    | Leaf
    | Nested(children: seq<Expr>)
    | Import(args: seq<Expr>, target: Option<Path>)
    | InlineModule(path: Path, ast: seq<Expr>, call: Expr)

  /** The files imported by an expression. */
  function Targets(e: Expr): set<Path>
    decreases e, 1
  {
    match e
    case Leaf => {}
    case Nested(children) => TargetsAll(children)
    case Import(args, target) => TargetsAll(args) + (if target.Some? then {target.value} else {})
    case InlineModule(_, _, _) => {}
  }

  function TargetsAll(es: seq<Expr>): set<Path>
    decreases es, 0
  {
    if es == [] then {} else Targets(es[0]) + TargetsAll(es[1..])
  }

  /** `part` stands directly in `whole`; parts of an inline module belong to another file. */
  predicate PartOf(part: Expr, whole: Expr) {
    (whole.Nested? && part in whole.children) || (whole.Import? && part in whole.args)
  }

  /** Expressions from a chunk of `es` down to an import of `p`, each standing directly in the one before. */
  predicate Chain(es: seq<Expr>, c: seq<Expr>, p: Path) {
    && c != [] && c[0] in es
    && (forall i {:trigger c[i]} :: 0 < i < |c| ==> PartOf(c[i], c[i - 1]))
    && c[|c| - 1].Import? && c[|c| - 1].target == Some(p)
  }

  /** `p` is imported somewhere in the chunks, at any depth. */
  ghost predicate Occurs(es: seq<Expr>, p: Path) {
    exists c :: Chain(es, c, p)
  }

  lemma {:induction false} TargetHasChain(e: Expr, p: Path) returns (c: seq<Expr>)
    requires p in Targets(e)
    ensures Chain([e], c, p)
    decreases e, 1
  {
    if e.Import? && e.target == Some(p) {
      c := [e];
    } else {
      hide Chain, TargetsAll;
      var parts := if e.Nested? then e.children else e.args;
      c := TargetsHaveChain(parts, p);
      ChainFurther(e, parts, c, p);
      c := [e] + c;
    }
  }

  lemma ChainFurther(e: Expr, parts: seq<Expr>, c: seq<Expr>, p: Path)
    requires Chain(parts, c, p) && forall part :: part in parts ==> PartOf(part, e)
    ensures Chain([e], [e] + c, p)
  {
    hide PartOf;
  }

  lemma ChainOneLess(es: seq<Expr>, c: seq<Expr>, p: Path)
    requires Chain(es, c, p) && |c| > 1
    ensures PartOf(c[1], c[0]) && Chain([c[1]], c[1..], p)
  {
    hide PartOf;
    assert PartOf(c[1], c[0]);
    forall i {:trigger c[1..][i]} | 0 < i < |c| - 1
      ensures PartOf(c[1..][i], c[1..][i - 1])
    {
      assert PartOf(c[i + 1], c[i]);
    }
  }

  lemma {:induction false} TargetsHaveChain(es: seq<Expr>, p: Path) returns (c: seq<Expr>)
    requires p in TargetsAll(es)
    ensures Chain(es, c, p)
    decreases es, 0
  {
    if p in Targets(es[0]) {
      c := TargetHasChain(es[0], p);
    } else {
      c := TargetsHaveChain(es[1..], p);
    }
  }

  lemma {:induction false} TargetsOfPart(es: seq<Expr>, e: Expr)
    requires e in es
    ensures Targets(e) <= TargetsAll(es)
  {
    if e != es[0] {
      TargetsOfPart(es[1..], e);
    }
  }

  lemma {:induction false} ChainIsTarget(es: seq<Expr>, c: seq<Expr>, p: Path)
    requires Chain(es, c, p)
    ensures p in TargetsAll(es)
    decreases |c|
  {
    hide TargetsAll;
    TargetsOfPart(es, c[0]);
    if |c| > 1 {
      hide Chain;
      ChainOneLess(es, c, p);
      ChainIsTarget([c[1]], c[1..], p);
      OneTarget(c[1]);
      TargetsOfPart(if c[0].Nested? then c[0].children else c[0].args, c[1]);
    }
  }

  lemma OneTarget(e: Expr)
    ensures TargetsAll([e]) == Targets(e)
  {
    hide Targets;
    assert [e][1..] == [];
  }

  /** The targets of a tree are exactly the imports that occur in it, however deep. */
  lemma TargetsIffOccurs(es: seq<Expr>, p: Path)
    ensures p in TargetsAll(es) <==> Occurs(es, p)
  {
    if p in TargetsAll(es) {
      var c := TargetsHaveChain(es, p);
    } else if c :| Chain(es, c, p) {
      ChainIsTarget(es, c, p);
    }
  }

  /** The tree as it was before any import was replaced. */
  function Erase(e: Expr): Expr
    decreases e, 1
  {
    match e
    case Leaf => Leaf
    case Nested(children) => Nested(EraseAll(children))
    case Import(args, target) => Import(EraseAll(args), target)
    case InlineModule(_, _, call) => Erase(call)
  }

  function EraseAll(es: seq<Expr>): seq<Expr>
    decreases es, 0
  {
    if es == [] then [] else [Erase(es[0])] + EraseAll(es[1..])
  }

  /** The modules inlined somewhere in an expression, at any depth. */
  function Inlined(e: Expr): set<Path>
    decreases e, 1
  {
    match e
    case Leaf => {}
    case Nested(children) => InlinedAll(children)
    case Import(args, _) => InlinedAll(args)
    case InlineModule(path, ast, call) => {path} + InlinedAll(ast) + Inlined(call)
  }

  function InlinedAll(es: seq<Expr>): set<Path>
    decreases es, 0
  {
    if es == [] then {} else Inlined(es[0]) + InlinedAll(es[1..])
  }

  /** A tree as the parser produces it. */
  predicate Plain(e: Expr)
    decreases e, 1
  {
    match e
    case Leaf => true
    case Nested(children) => PlainAll(children)
    case Import(args, _) => PlainAll(args)
    case InlineModule(_, _, _) => false
  }

  predicate PlainAll(es: seq<Expr>)
    decreases es, 0
  {
    es == [] || (Plain(es[0]) && PlainAll(es[1..]))
  }

  lemma {:induction false} PlainErase(e: Expr)
    requires Plain(e)
    ensures Erase(e) == e && Inlined(e) == {}
    decreases e, 1
  {
    match e
    case Leaf =>
    case Nested(children) => PlainEraseAll(children);
    case Import(args, _) => PlainEraseAll(args);
  }

  lemma {:induction false} PlainEraseAll(es: seq<Expr>)
    requires PlainAll(es)
    ensures EraseAll(es) == es && InlinedAll(es) == {}
    decreases es, 0
  {
    if es != [] {
      PlainErase(es[0]);
      PlainEraseAll(es[1..]);
    }
  }

  /**
   A program: the files that can be read, the path of the main module and its tree.
   A module that cannot be read counts as empty.
   */
  datatype Package = Package(files: map<Path, seq<Expr>>, root: Path, main: seq<Expr>) {

    function Source(p: Path): seq<Expr> {
      if p == root then main else if p in files then files[p] else []
    }

    function Universe(): set<Path> {
      {root} + TargetsAll(main) + files.Keys + (set f, p | f in files && p in TargetsAll(files[f]) :: p)
    }

    /** Every import of every module that could take part. */
    ghost function ImportGraph(): Graph<Path> {
      map p | p in Universe() :: TargetsAll(Source(p))
    }

    /** No file comes from the parser with inlined modules in it. */
    ghost predicate Parsed() {
      PlainAll(main) && forall f :: f in files ==> PlainAll(files[f])
    }

    lemma TargetsInUniverse(p: Path)
      ensures TargetsAll(Source(p)) <= Universe()
    {
    }

    /** The edges of the import graph are exactly the imports that occur in the files. */
    lemma EdgeIffOccurs(p: Path, q: Path)
      ensures q in Deps(ImportGraph(), p) <==> Occurs(Source(p), q)
    {
      TargetsIffOccurs(Source(p), q);
    }
  }

  /** Each inlined module is the whole of that module, put where it was imported. */
  ghost predicate WellInlined(k: Package, e: Expr)
    decreases e, 1
  {
    match e
    case Leaf => true
    case Nested(children) => WellInlinedAll(k, children)
    case Import(args, _) => WellInlinedAll(k, args)
    case InlineModule(path, ast, call) =>
      && call.Import? && call.target == Some(path) && WellInlined(k, call)
      && EraseAll(ast) == k.Source(path) && WellInlinedAll(k, ast)
  }

  ghost predicate WellInlinedAll(k: Package, es: seq<Expr>)
    decreases es, 0
  {
    es == [] || (WellInlined(k, es[0]) && WellInlinedAll(k, es[1..]))
  }

  lemma {:induction false} AppendChunk(k: Package, es: seq<Expr>, e: Expr)
    ensures TargetsAll(es + [e]) == TargetsAll(es) + Targets(e)
    ensures EraseAll(es + [e]) == EraseAll(es) + [Erase(e)]
    ensures InlinedAll(es + [e]) == InlinedAll(es) + Inlined(e)
    ensures WellInlinedAll(k, es + [e]) <==> WellInlinedAll(k, es) && WellInlined(k, e)
    decreases |es|
  {
    if es == [] {
      assert es + [e] == [e];
    } else {
      AppendChunk(k, es[1..], e);
      assert (es + [e])[1..] == es[1..] + [e];
    }
  }
}
