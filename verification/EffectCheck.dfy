/**
 The side-effect checker: a visitor with a stack of enclosing blocks and a stack of enclosing names,
 which reports effects in places where they are not allowed.
 */
module EffectCheck {
  import opened Hir
  import opened Wrappers
  import Optimize

  datatype BlockKind = Func | ConstFunc | ConstInstant | Proc | Instant | Module

  datatype Visibility = Visibility(isPublic: bool, name: string)

  datatype EffectError =
    | HasEffect(expr: Expr, path: string)
    | TouchMut(expr: Expr, path: string)
    | ProcAssign(path: string)
    | ConstructorDestructor(path: string)

  /** The rule looks at the innermost block and the one around it. */
  predicate Allowed(blocks: seq<BlockKind>)
    requires blocks != []
  {
    if |blocks| == 1 then true
    else
      match (blocks[|blocks| - 2], blocks[|blocks| - 1])
      case (_, Func) => false
      case (_, ConstInstant) => false
      case (_, Proc) => true
      case (Proc, Instant) => true
      case (Module, Instant) => true
      case (Instant, Instant) => true
      case _ => false
  }

  function Trimmed(s: string): string {
    if s != "" && (s[0] == '.' || s[0] == ':') then Trimmed(s[1..]) else s
  }

  function Joined(paths: seq<Visibility>): string {
    if paths == [] then ""
    else
      var n := |paths| - 1;
      Joined(paths[..n]) + (if paths[n].isPublic then "." else "::") + paths[n].name
  }

  function FullPath(paths: seq<Visibility>): string {
    Trimmed(Joined(paths))
  }

  /** The block a definition opens. A constant procedure cannot be written. */
  function BlockOf(sig: Signature): BlockKind
    requires !(sig.isProcedural && sig.isSubr && sig.isConst)
  {
    if sig.isSubr then
      if sig.isProcedural then Proc else if sig.isConst then ConstFunc else Func
    else if sig.isConst then ConstInstant else Instant
  }

  predicate Touches(vi: VarInfo, blocks: seq<BlockKind>, paths: seq<Visibility>)
    requires blocks != []
  {
    !Allowed(blocks) && !vi.isParameter && vi.isMutable && !vi.rootIsRef && vi.namespace != FullPath(paths)
  }

  // ---- the errors of an expression, in traversal order ----

  /** No constant procedures, anywhere. */
  predicate WellFormed(e: Expr)
    decreases e, 2
  {
    match e
    case Literal(_) => true
    case Accessor(_) => true
    case Call(obj, _, _, _, posArgs, varArgs, kwArgs) =>
      WellFormed(obj) && AllWellFormed(posArgs) && AllWellFormed(varArgs) && AllWellFormed(kwArgs)
    case BinOp(_, lhs, rhs) => WellFormed(lhs) && WellFormed(rhs)
    case UnaryOp(operand) => WellFormed(operand)
    case Collection(elems) => AllWellFormed(elems)
    case Lambda(_, params, body) => ParamsWellFormed(params) && AllWellFormed(body)
    case Def(sig, params, body) =>
      !(sig.isProcedural && sig.isSubr && sig.isConst) && ParamsWellFormed(params) && AllWellFormed(body)
    case Record(attrs) => (forall d :: d in attrs ==> d.Def?) && AllWellFormed(attrs)
    case Class(bases, methods) => AllWellFormed(bases) && AllWellFormed(methods)
    case TypeAsc(expr) => WellFormed(expr)
    case Code(block) => AllWellFormed(block)
    case Compound(block) => AllWellFormed(block)
    case Dummy => true
  }

  predicate AllWellFormed(es: seq<Expr>)
    decreases es, 0
  {
    es == [] || (WellFormed(es[0]) && AllWellFormed(es[1..]))
  }

  predicate ParamsWellFormed(ps: seq<Param>)
    decreases ps, 1
  {
    ps == [] || (AllWellFormed(ps[0].default) && ParamsWellFormed(ps[1..]))
  }

  function Report(e: Expr, blocks: seq<BlockKind>, paths: seq<Visibility>): seq<EffectError>
    requires blocks != [] && WellFormed(e)
    decreases e, 2
  {
    match e
    case Literal(_) => []
    case Accessor(vi) => if Touches(vi, blocks, paths) then [TouchMut(e, FullPath(paths))] else []
    case Call(obj, _, _, createsInstance, posArgs, _, kwArgs) =>
      (if createsInstance && !Allowed(blocks) then [ConstructorDestructor(FullPath(paths))] else [])
      + Report(obj, blocks, paths)
      + (if IsEffect(e) && !Allowed(blocks) then [HasEffect(e, FullPath(paths))] else [])
      + ReportAll(posArgs, blocks, paths)
      + ReportAll(kwArgs, blocks, paths)
    case BinOp(isIdentityTest, lhs, rhs) =>
      Report(lhs, blocks, paths) + Report(rhs, blocks, paths)
      + (if isIdentityTest && !Allowed(blocks) then [HasEffect(e, FullPath(paths))] else [])
    case UnaryOp(operand) => Report(operand, blocks, paths)
    case Collection(elems) => ReportAll(elems, blocks, paths)
    case Lambda(isProc, params, body) =>
      var b := blocks + [if isProc then Proc else Func];
      var p := paths + [Visibility(false, if isProc then "<lambda!>" else "<lambda>")];
      ReportParams(params, b, p) + ReportAll(body, b, p)
    case Def(sig, params, body) =>
      var b := blocks + [BlockOf(sig)];
      var p := if sig.isSubr then paths + [Visibility(sig.isPublic, sig.name)] else paths;
      (if sig.isSubr then ReportParams(params, b, p) else [])
      + ReportAll(body, b, p)
      + (if BlockOf(sig) == Instant && !sig.isProcedural && body != [] && IsProcedure(body[|body| - 1])
         then [ProcAssign(FullPath(p))] else [])
    case Record(attrs) =>
      ReportAll(attrs, blocks + [Instant], paths + [Visibility(false, "<record>")])
    case Class(bases, methods) => ReportAll(bases, blocks, paths) + ReportAll(methods, blocks, paths)
    case TypeAsc(expr) => Report(expr, blocks, paths)
    case Code(_) => []
    case Compound(_) => []
    case Dummy => []
  }

  function ReportAll(es: seq<Expr>, blocks: seq<BlockKind>, paths: seq<Visibility>): seq<EffectError>
    requires blocks != [] && AllWellFormed(es)
    decreases es, 0
  {
    if es == [] then [] else Report(es[0], blocks, paths) + ReportAll(es[1..], blocks, paths)
  }

  function ReportParams(ps: seq<Param>, blocks: seq<BlockKind>, paths: seq<Visibility>): seq<EffectError>
    requires blocks != [] && ParamsWellFormed(ps)
    decreases ps, 1
  {
    if ps == [] then []
    else
      (if ps[0].isProcedure && !ps[0].endsWithBang then [ProcAssign(FullPath(paths))] else [])
      + ReportAll(ps[0].default, blocks, paths)
      + ReportParams(ps[1..], blocks, paths)
  }

  lemma Regrouped<T>(a: seq<T>, b: seq<T>, c: seq<T>)
    ensures a + (b + c) == a + b + c
  {
  }

  lemma {:induction false} ReportAllAppend(es: seq<Expr>, i: nat, blocks: seq<BlockKind>, paths: seq<Visibility>)
    requires blocks != [] && AllWellFormed(es) && i < |es|
    ensures WellFormed(es[i]) && AllWellFormed(es[..i]) && AllWellFormed(es[..i + 1])
    ensures ReportAll(es[..i + 1], blocks, paths) == ReportAll(es[..i], blocks, paths) + Report(es[i], blocks, paths)
    decreases i
  {
    hide Report, WellFormed;
    if i > 0 {
      ReportAllAppend(es[1..], i - 1, blocks, paths);
      assert es[..i][1..] == es[1..][..i - 1] && es[..i + 1][1..] == es[1..][..i];
      Regrouped(Report(es[0], blocks, paths), ReportAll(es[1..][..i - 1], blocks, paths), Report(es[i], blocks, paths));
    } else {
      assert es[..1][1..] == [] && es[..0] == [];
    }
  }

  lemma {:induction false} ReportParamsAppend(ps: seq<Param>, i: nat, blocks: seq<BlockKind>, paths: seq<Visibility>)
    requires blocks != [] && ParamsWellFormed(ps) && i < |ps|
    ensures AllWellFormed(ps[i].default) && ParamsWellFormed(ps[..i]) && ParamsWellFormed(ps[..i + 1])
    ensures ReportParams(ps[..i + 1], blocks, paths) ==
              ReportParams(ps[..i], blocks, paths)
              + (if ps[i].isProcedure && !ps[i].endsWithBang then [ProcAssign(FullPath(paths))] else [])
              + ReportAll(ps[i].default, blocks, paths)
    decreases i
  {
    hide FullPath, ReportAll, AllWellFormed;
    if i > 0 {
      ReportParamsAppend(ps[1..], i - 1, blocks, paths);
      assert ps[..i][1..] == ps[1..][..i - 1] && ps[..i + 1][1..] == ps[1..][..i];
      var first := (if ps[0].isProcedure && !ps[0].endsWithBang then [ProcAssign(FullPath(paths))] else [])
        + ReportAll(ps[0].default, blocks, paths);
      var last := if ps[i].isProcedure && !ps[i].endsWithBang then [ProcAssign(FullPath(paths))] else [];
      Regrouped(first, ReportParams(ps[1..][..i - 1], blocks, paths) + last, ReportAll(ps[i].default, blocks, paths));
      Regrouped(first, ReportParams(ps[1..][..i - 1], blocks, paths), last);
    } else {
      assert ps[..1][1..] == [];
    }
  }

  class SideEffectChecker {
    var pathStack: seq<Visibility>
    var blockStack: seq<BlockKind>
    var errs: seq<EffectError>

    constructor (namespace: string)
      ensures pathStack == [Visibility(false, namespace)] && blockStack == [Module] && errs == []
    {
      pathStack, blockStack, errs := [Visibility(false, namespace)], [Module], [];
    }

    /** Checks expressions one after the other. */
    method CheckAll(es: seq<Expr>)
      requires blockStack != [] && AllWellFormed(es)
      modifies this
      ensures blockStack == old(blockStack) && pathStack == old(pathStack)
      ensures errs == old(errs) + ReportAll(es, blockStack, pathStack)
      decreases es, 0
    {
      for i := 0 to |es|
        invariant blockStack == old(blockStack) && pathStack == old(pathStack)
        invariant AllWellFormed(es[..i]) && errs == old(errs) + ReportAll(es[..i], blockStack, pathStack)
      {
        ReportAllAppend(es, i, blockStack, pathStack);
        CheckExpr(es[i]);
      }
      assert es[..|es|] == es;
    }

    method CheckParams(ps: seq<Param>)
      requires blockStack != [] && ParamsWellFormed(ps)
      modifies this
      ensures blockStack == old(blockStack) && pathStack == old(pathStack)
      ensures errs == old(errs) + ReportParams(ps, blockStack, pathStack)
      decreases ps, 1
    {
      hide FullPath, ReportAll;
      for i := 0 to |ps|
        invariant blockStack == old(blockStack) && pathStack == old(pathStack)
        invariant ParamsWellFormed(ps[..i]) && errs == old(errs) + ReportParams(ps[..i], blockStack, pathStack)
      {
        ReportParamsAppend(ps, i, blockStack, pathStack);
        if ps[i].isProcedure && !ps[i].endsWithBang {
          errs := errs + [ProcAssign(FullPath(pathStack))];
        }
        CheckAll(ps[i].default);
      }
      assert ps[..|ps|] == ps;
    }

    /** Checks a definition in a block of its own, which is closed again. */
    method CheckDef(def: Expr)
      requires blockStack != [] && def.Def? && WellFormed(def)
      modifies this
      ensures blockStack == old(blockStack) && pathStack == old(pathStack)
      ensures errs == old(errs) + Report(def, blockStack, pathStack)
      decreases def, 1
    {
      hide ReportAll, ReportParams, AllWellFormed, ParamsWellFormed, FullPath, BlockOf, IsProcedure;
      ghost var b := blockStack + [BlockOf(def.sig)];
      ghost var p := if def.sig.isSubr then pathStack + [Visibility(def.sig.isPublic, def.sig.name)] else pathStack;
      if def.sig.isSubr {
        pathStack := pathStack + [Visibility(def.sig.isPublic, def.sig.name)];
      }
      blockStack := blockStack + [BlockOf(def.sig)];
      ghost var params: seq<EffectError> := [];
      if def.sig.isSubr {
        CheckParams(def.params);
        params := ReportParams(def.params, b, p);
      }
      assert errs == old(errs) + params;
      CheckAll(def.body);
      ghost var body := ReportAll(def.body, b, p);
      Regrouped(old(errs), params, body);
      ghost var named: seq<EffectError> := [];
      if blockStack[|blockStack| - 1] == Instant && !def.sig.isProcedural && def.body != [] && IsProcedure(def.body[|def.body| - 1]) {
        errs := errs + [ProcAssign(FullPath(pathStack))];
        named := [ProcAssign(FullPath(p))];
      }
      Regrouped(old(errs), params + body, named);
      assert errs == old(errs) + (params + body + named);
      if def.sig.isSubr {
        pathStack := pathStack[..|pathStack| - 1];
      }
      blockStack := blockStack[..|blockStack| - 1];
    }

    /** A record is an instant block, and its attributes are definitions in it. */
    method CheckRecord(e: Expr)
      requires blockStack != [] && e.Record? && WellFormed(e)
      modifies this
      ensures blockStack == old(blockStack) && pathStack == old(pathStack)
      ensures errs == old(errs) + Report(e, blockStack, pathStack)
      decreases e, 1
    {
      hide ReportAll, AllWellFormed;
      pathStack := pathStack + [Visibility(false, "<record>")];
      blockStack := blockStack + [Instant];
      CheckAll(e.attrs);
      pathStack := pathStack[..|pathStack| - 1];
      blockStack := blockStack[..|blockStack| - 1];
    }

    method CheckCall(e: Expr)
      requires blockStack != [] && e.Call? && WellFormed(e)
      modifies this
      ensures blockStack == old(blockStack) && pathStack == old(pathStack)
      ensures errs == old(errs) + Report(e, blockStack, pathStack)
      decreases e, 1
    {
      hide Allowed, FullPath, ReportAll, IsEffect, AllWellFormed;
      if e.createsInstance && !Allowed(blockStack) {
        errs := errs + [ConstructorDestructor(FullPath(pathStack))];
      }
      ghost var made := errs[|old(errs)|..];
      CheckExpr(e.obj);
      ghost var obj := Report(e.obj, blockStack, pathStack);
      assert errs == old(errs) + (made + obj);
      if IsEffect(e) && !Allowed(blockStack) {
        errs := errs + [HasEffect(e, FullPath(pathStack))];
      }
      ghost var here := errs[|old(errs) + (made + obj)|..];
      assert errs == old(errs) + (made + obj + here);
      CheckAll(e.posArgs);
      ghost var pos := ReportAll(e.posArgs, blockStack, pathStack);
      assert errs == old(errs) + (made + obj + here + pos);
      CheckAll(e.kwArgs);
      assert errs == old(errs) + (made + obj + here + pos + ReportAll(e.kwArgs, blockStack, pathStack));
    }

    method CheckBinOp(e: Expr)
      requires blockStack != [] && e.BinOp? && WellFormed(e)
      modifies this
      ensures blockStack == old(blockStack) && pathStack == old(pathStack)
      ensures errs == old(errs) + Report(e, blockStack, pathStack)
      decreases e, 1
    {
      hide Allowed, FullPath;
      CheckExpr(e.lhs);
      CheckExpr(e.rhs);
      if e.isIdentityTest && !Allowed(blockStack) {
        errs := errs + [HasEffect(e, FullPath(pathStack))];
      }
    }

    method CheckLambda(e: Expr)
      requires blockStack != [] && e.Lambda? && WellFormed(e)
      modifies this
      ensures blockStack == old(blockStack) && pathStack == old(pathStack)
      ensures errs == old(errs) + Report(e, blockStack, pathStack)
      decreases e, 1
    {
      hide ReportAll, ReportParams, AllWellFormed, ParamsWellFormed;
      if e.isProc {
        pathStack := pathStack + [Visibility(false, "<lambda!>")];
        blockStack := blockStack + [Proc];
      } else {
        pathStack := pathStack + [Visibility(false, "<lambda>")];
        blockStack := blockStack + [Func];
      }
      CheckParams(e.params);
      CheckAll(e.body);
      pathStack := pathStack[..|pathStack| - 1];
      blockStack := blockStack[..|blockStack| - 1];
    }

    /** Checks an expression: both stacks are as before, and exactly its errors have been added, in order. */
    method CheckExpr(e: Expr)
      requires blockStack != [] && WellFormed(e)
      modifies this
      ensures blockStack == old(blockStack) && pathStack == old(pathStack)
      ensures errs == old(errs) + Report(e, blockStack, pathStack)
      decreases e, 2
    {
      hide Allowed, FullPath, Touches, ReportAll, AllWellFormed;
      match e
      case Literal(_) =>
      case Def(_, _, _) => CheckDef(e);
      case Class(bases, methods) =>
        CheckAll(bases);
        CheckAll(methods);
      case Collection(elems) => CheckAll(elems);
      case Record(_) => CheckRecord(e);
      case Call(_, _, _, _, _, _, _) => CheckCall(e);
      case UnaryOp(operand) => CheckExpr(operand);
      case BinOp(_, _, _) => CheckBinOp(e);
      case Lambda(_, _, _) => CheckLambda(e);
      case TypeAsc(expr) => CheckExpr(expr);
      case Accessor(vi) =>
        if Touches(vi, blockStack, pathStack) {
          errs := errs + [TouchMut(e, FullPath(pathStack))];
        }
      case Code(_) =>
      case Compound(_) =>
      case Dummy =>
    }
  }

  // ---- what is reported, told by the tree ----

  /** The parameters the checker looks at. */
  function ParamsOf(e: Expr): seq<Param> {
    match e
    case Lambda(_, params, _) => params
    case Def(sig, params, _) => if sig.isSubr then params else []
    case _ => []
  }

  /** The checker looks at `part` when it looks at `whole`: not at unpacked arguments, code and compound blocks. */
  predicate VisitedPart(part: Expr, whole: Expr) {
    || (exists p :: p in ParamsOf(whole) && part in p.default)
    || match whole
       case Call(obj, _, _, _, posArgs, _, kwArgs) => part == obj || part in posArgs || part in kwArgs
       case BinOp(_, lhs, rhs) => part == lhs || part == rhs
       case UnaryOp(operand) => part == operand
       case Collection(elems) => part in elems
       case Lambda(_, _, body) => part in body
       case Def(_, _, body) => part in body
       case Record(attrs) => part in attrs
       case Class(bases, methods) => part in bases || part in methods
       case TypeAsc(expr) => part == expr
       case _ => false
  }

  /** `x` is in `e`, with `around` around it from `e` itself inwards. */
  predicate LeadsTo(e: Expr, around: seq<Expr>, x: Expr) {
    var c := around + [x];
    c[0] == e && forall i {:trigger c[i]} :: 0 < i < |c| ==> VisitedPart(c[i], c[i - 1])
  }

  /**
   The nearest lambda, constant or subroutine around is not a procedure,
   and fewer than two variables or records are in between, with `gaps` of them further in.
   */
  predicate InFunction(around: seq<Expr>, gaps: nat) {
    if around == [] then false
    else
      var n := |around| - 1;
      match around[n]
      case Lambda(isProc, _, _) => !isProc && gaps < 2
      case Def(sig, _, _) =>
        if sig.isSubr then !sig.isProcedural && gaps < 2
        else if sig.isConst then gaps < 2
        else InFunction(around[..n], gaps + 1)
      case Record(_) => InFunction(around[..n], gaps + 1)
      case _ => InFunction(around[..n], gaps)
  }

  /** The names that the expressions around give to what is inside. */
  function Names(around: seq<Expr>): seq<Visibility> {
    if around == [] then []
    else var n := |around| - 1; Names(around[..n]) + NameOf(around[n])
  }

  function NameOf(e: Expr): seq<Visibility> {
    match e
    case Lambda(isProc, _, _) => [Visibility(false, if isProc then "<lambda!>" else "<lambda>")]
    case Def(sig, _, _) => if sig.isSubr then [Visibility(sig.isPublic, sig.name)] else []
    case Record(_) => [Visibility(false, "<record>")]
    case _ => []
  }

  function PathTo(around: seq<Expr>, base: seq<Visibility>): string {
    FullPath(base + Names(around))
  }

  /** A call of a procedure or of a procedural method, or an identity test. */
  predicate HasItsEffect(e: Expr) {
    (e.Call? && (e.attrIsProcedural || IsProcedure(e.obj))) || (e.BinOp? && e.isIdentityTest)
  }

  lemma EffectOfCall(e: Expr)
    requires e.Call?
    ensures HasItsEffect(e) <==> IsEffect(e)
  {
  }

  /** A mutable variable of another namespace. */
  predicate IsForeign(e: Expr, path: string) {
    e.Accessor? && !e.vi.isParameter && e.vi.isMutable && !e.vi.rootIsRef && e.vi.namespace != path
  }

  /** A procedure gets a name without the mark of procedures. */
  predicate NamesProcedure(e: Expr) {
    e.Def? && !e.sig.isSubr && !e.sig.isConst && !e.sig.isProcedural && e.body != [] && IsProcedure(e.body[|e.body| - 1])
  }

  predicate TakesProcedure(p: Param) {
    p.isProcedure && !p.endsWithBang
  }

  /** What `x` is reported for, with `around` around it. */
  predicate Culprit(x: Expr, around: seq<Expr>, base: seq<Visibility>, err: EffectError) {
    match err
    case HasEffect(e, path) => e == x && HasItsEffect(x) && InFunction(around, 0) && path == PathTo(around, base)
    case TouchMut(e, path) => e == x && IsForeign(x, path) && InFunction(around, 0) && path == PathTo(around, base)
    case ConstructorDestructor(path) => x.Call? && x.createsInstance && InFunction(around, 0) && path == PathTo(around, base)
    case ProcAssign(path) =>
      || (NamesProcedure(x) && path == PathTo(around, base))
      || (path == PathTo(around + [x], base) && exists p :: p in ParamsOf(x) && TakesProcedure(p))
  }

  // ---- the visited places in traversal order ----

  /** Where an error can arise: a new instance, an effect or a variable, a named value, a parameter of the innermost expression around. */
  datatype Site =
    | Made(expr: Expr, around: seq<Expr>)
    | Used(expr: Expr, around: seq<Expr>)
    | Named(expr: Expr, around: seq<Expr>)
    | Taken(param: Param, around: seq<Expr>)

  function Sites(e: Expr, around: seq<Expr>): seq<Site>
    decreases e, 2
  {
    var inner := around + [e];
    match e
    case Accessor(_) => [Used(e, around)]
    case Call(obj, _, _, _, posArgs, _, kwArgs) =>
      [Made(e, around)] + Sites(obj, inner) + [Used(e, around)] + SitesAll(posArgs, inner) + SitesAll(kwArgs, inner)
    case BinOp(_, lhs, rhs) => Sites(lhs, inner) + Sites(rhs, inner) + [Used(e, around)]
    case UnaryOp(operand) => Sites(operand, inner)
    case Collection(elems) => SitesAll(elems, inner)
    case Lambda(_, params, body) => SitesParams(params, inner) + SitesAll(body, inner)
    case Def(sig, params, body) =>
      (if sig.isSubr then SitesParams(params, inner) else []) + SitesAll(body, inner) + [Named(e, around)]
    case Record(attrs) => SitesAll(attrs, inner)
    case Class(bases, methods) => SitesAll(bases, inner) + SitesAll(methods, inner)
    case TypeAsc(expr) => Sites(expr, inner)
    case _ => []
  }

  function SitesAll(es: seq<Expr>, around: seq<Expr>): seq<Site>
    decreases es, 0
  {
    if es == [] then [] else Sites(es[0], around) + SitesAll(es[1..], around)
  }

  function SitesParams(ps: seq<Param>, around: seq<Expr>): seq<Site>
    decreases ps, 1
  {
    if ps == [] then [] else [Taken(ps[0], around)] + SitesAll(ps[0].default, around) + SitesParams(ps[1..], around)
  }

  /** What a site is reported for, if for anything. */
  function Verdict(s: Site, base: seq<Visibility>): seq<EffectError> {
    var path := PathTo(s.around, base);
    match s
    case Made(e, around) =>
      if e.Call? && e.createsInstance && InFunction(around, 0) then [ConstructorDestructor(path)] else []
    case Used(e, around) =>
      if !InFunction(around, 0) then []
      else if HasItsEffect(e) then [HasEffect(e, path)]
      else if IsForeign(e, path) then [TouchMut(e, path)]
      else []
    case Named(e, _) => if NamesProcedure(e) then [ProcAssign(path)] else []
    case Taken(p, _) => if TakesProcedure(p) then [ProcAssign(path)] else []
  }

  function Verdicts(sites: seq<Site>, base: seq<Visibility>): seq<EffectError> {
    if sites == [] then [] else Verdict(sites[0], base) + Verdicts(sites[1..], base)
  }

  lemma {:induction false} VerdictsConcat(a: seq<Site>, b: seq<Site>, base: seq<Visibility>)
    ensures Verdicts(a + b, base) == Verdicts(a, base) + Verdicts(b, base)
  {
    hide Verdict;
    if a == [] {
      assert a + b == b;
    } else {
      VerdictsConcat(a[1..], b, base);
      assert (a + b)[1..] == a[1..] + b && (a + b)[0] == a[0];
      Regrouped(Verdict(a[0], base), Verdicts(a[1..], base), Verdicts(b, base));
    }
  }

  /** A reported stretch lists exactly the verdicts on the sites of the stretch, in order. */
  ghost predicate Matches(errs: seq<EffectError>, sites: seq<Site>, base: seq<Visibility>) {
    errs == Verdicts(sites, base)
  }

  lemma MatchesConcat(a: seq<EffectError>, x: seq<Site>, b: seq<EffectError>, y: seq<Site>, base: seq<Visibility>)
    requires Matches(a, x, base) && Matches(b, y, base)
    ensures Matches(a + b, x + y, base)
  {
    hide Verdicts;
    VerdictsConcat(x, y, base);
  }

  lemma NothingMatches(base: seq<Visibility>)
    ensures Matches([], [], base)
  {
  }

  lemma OneMatches(errs: seq<EffectError>, s: Site, base: seq<Visibility>)
    requires errs == Verdict(s, base)
    ensures Matches(errs, [s], base)
  {
    hide Verdict;
    assert [s][1..] == [] && Verdicts([s], base) == Verdict(s, base) + Verdicts([], base);
  }

  /** No constant procedures. */
  predicate Written(around: seq<Expr>) {
    forall d :: d in around && d.Def? ==> !(d.sig.isProcedural && d.sig.isSubr && d.sig.isConst)
  }

  /** The blocks that are open below `around`. */
  function Opened(around: seq<Expr>): (r: seq<BlockKind>)
    requires Written(around)
    ensures r != []
  {
    if around == [] then [Module]
    else var n := |around| - 1; Opened(around[..n]) + Opens(around[n])
  }

  function Opens(e: Expr): seq<BlockKind>
    requires Written([e])
  {
    match e
    case Lambda(isProc, _, _) => [if isProc then Proc else Func]
    case Def(sig, _, _) => assert e in [e]; [BlockOf(sig)]
    case Record(_) => [Instant]
    case _ => []
  }

  function Instants(n: nat): seq<BlockKind> {
    seq(n, i => Instant)
  }

  /** The rule about the two innermost blocks forbids exactly what is in a function. */
  lemma {:induction false} ForbiddenIffInFunction(around: seq<Expr>, gaps: nat)
    requires Written(around)
    ensures !Allowed(Opened(around) + Instants(gaps)) <==> InFunction(around, gaps)
    decreases |around|
  {
    hide Allowed, Instants, BlockOf;
    if around == [] {
      InstantsOver([], Module, gaps);
      assert [] + [Module] + Instants(gaps) == [Module] + Instants(gaps);
    } else {
      var n := |around| - 1;
      var outer, c := Opened(around[..n]), Opens(around[n]);
      OpensBlock(around[n]);
      if c == [] {
        assert outer + c == outer;
        ForbiddenIffInFunction(around[..n], gaps);
      } else if c == [Instant] {
        ForbiddenIffInFunction(around[..n], gaps + 1);
        OneMoreInstant(outer, gaps);
      } else {
        InstantsOver(outer, c[0], gaps);
        assert c == [c[0]];
      }
    }
  }

  /** What kind of block an expression opens, told by its flags. */
  lemma OpensBlock(e: Expr)
    requires Written([e])
    ensures Opens(e) ==
              match e
              case Lambda(isProc, _, _) => [if isProc then Proc else Func]
              case Def(sig, _, _) =>
                [if sig.isSubr && sig.isProcedural then Proc
                 else if sig.isSubr && sig.isConst then ConstFunc
                 else if sig.isSubr then Func
                 else if sig.isConst then ConstInstant
                 else Instant]
              case Record(_) => [Instant]
              case _ => []
  {
  }

  lemma OneMoreInstant(blocks: seq<BlockKind>, gaps: nat)
    ensures blocks + [Instant] + Instants(gaps) == blocks + Instants(gaps + 1)
  {
  }

  /** Below a procedure or a module effects are allowed; below a function, after two instant blocks. */
  lemma InstantsOver(blocks: seq<BlockKind>, b: BlockKind, gaps: nat)
    requires b != Instant && (b == Module <==> blocks == [])
    ensures !Allowed(blocks + [b] + Instants(gaps)) <==> b in {Func, ConstFunc, ConstInstant} && gaps < 2
  {
    var all := blocks + [b] + Instants(gaps);
    assert |all| == |blocks| + 1 + gaps && all[|blocks|] == b;
    assert gaps > 0 ==> all[|all| - 1] == Instant;
    assert gaps > 1 ==> all[|all| - 2] == Instant;
  }

  lemma ForbiddenHere(around: seq<Expr>)
    requires Written(around)
    ensures !Allowed(Opened(around)) <==> InFunction(around, 0)
  {
    hide Allowed, InFunction, Opened;
    ForbiddenIffInFunction(around, 0);
    assert Opened(around) + Instants(0) == Opened(around);
  }

  /** What an expression adds to the blocks and names around its parts. */
  lemma Inside(around: seq<Expr>, e: Expr, base: seq<Visibility>)
    requires Written(around) && WellFormed(e)
    ensures Written([e]) && Written(around + [e])
    ensures Opened(around + [e]) == Opened(around) + Opens(e)
    ensures base + Names(around + [e]) == base + Names(around) + NameOf(e)
  {
    hide AllWellFormed, ParamsWellFormed, Opens, NameOf;
    var inner := around + [e];
    assert inner[..|inner| - 1] == around && inner[|inner| - 1] == e;
    assert e in [e];
  }

  /** A use where it is not allowed. */
  lemma UsedMatches(e: Expr, around: seq<Expr>, base: seq<Visibility>)
    requires Written(around)
    ensures !e.Accessor? ==>
              Matches(if HasItsEffect(e) && !Allowed(Opened(around)) then [HasEffect(e, PathTo(around, base))] else [],
                [Used(e, around)], base)
    ensures e.Accessor? ==> Matches(Report(e, Opened(around), base + Names(around)), [Used(e, around)], base)
  {
    hide Allowed, FullPath, Names, Opened, InFunction, Matches;
    ForbiddenHere(around);
    OneMatches(Verdict(Used(e, around), base), Used(e, around), base);
  }

  lemma MadeMatches(e: Expr, around: seq<Expr>, base: seq<Visibility>)
    requires Written(around) && e.Call?
    ensures Matches(if e.createsInstance && !Allowed(Opened(around)) then [ConstructorDestructor(PathTo(around, base))] else [],
              [Made(e, around)], base)
  {
    hide Allowed, FullPath, Names, Opened, InFunction, Matches;
    ForbiddenHere(around);
    OneMatches(Verdict(Made(e, around), base), Made(e, around), base);
  }

  /** What is reported are the verdicts on the visited sites, in traversal order. */
  lemma {:induction false} ReportsForbidden(e: Expr, around: seq<Expr>, base: seq<Visibility>)
    requires WellFormed(e) && Written(around)
    ensures Matches(Report(e, Opened(around), base + Names(around)), Sites(e, around), base)
    decreases e, 2
  {
    hide Matches, Allowed, FullPath, Touches, Names, Opened, Written, ReportAll, ReportParams, SitesAll, SitesParams, AllWellFormed,
      ParamsWellFormed;
    Inside(around, e, base);
    var (b, p, inner) := (Opened(around), base + Names(around), around + [e]);
    match e
    case Accessor(_) => UsedMatches(e, around, base);
    case Call(_, _, _, _, _, _, _) => CallReportsForbidden(e, around, base);
    case BinOp(isIdentityTest, lhs, rhs) =>
      assert b + [] == b && p + [] == p;
      ReportsForbidden(lhs, inner, base);
      ReportsForbidden(rhs, inner, base);
      MatchesConcat(Report(lhs, b, p), Sites(lhs, inner), Report(rhs, b, p), Sites(rhs, inner), base);
      UsedMatches(e, around, base);
      assert HasItsEffect(e) == isIdentityTest;
      MatchesConcat(Report(lhs, b, p) + Report(rhs, b, p), Sites(lhs, inner) + Sites(rhs, inner),
        if HasItsEffect(e) && !Allowed(b) then [HasEffect(e, PathTo(around, base))] else [], [Used(e, around)], base);
    case UnaryOp(operand) =>
      assert b + [] == b && p + [] == p;
      ReportsForbidden(operand, inner, base);
    case Collection(elems) =>
      assert b + [] == b && p + [] == p;
      ReportsForbiddenAll(elems, inner, base);
    case Lambda(_, params, body) =>
      var (b', p') := (Opened(inner), base + Names(inner));
      ReportsForbiddenParams(params, inner, base);
      ReportsForbiddenAll(body, inner, base);
      MatchesConcat(ReportParams(params, b', p'), SitesParams(params, inner), ReportAll(body, b', p'), SitesAll(body, inner), base);
    case Def(_, _, _) => DefReportsForbidden(e, around, base);
    case Record(attrs) => ReportsForbiddenAll(attrs, inner, base);
    case Class(bases, methods) =>
      assert b + [] == b && p + [] == p;
      ReportsForbiddenAll(bases, inner, base);
      ReportsForbiddenAll(methods, inner, base);
      MatchesConcat(ReportAll(bases, b, p), SitesAll(bases, inner), ReportAll(methods, b, p), SitesAll(methods, inner), base);
    case TypeAsc(expr) =>
      assert b + [] == b && p + [] == p;
      ReportsForbidden(expr, inner, base);
    case _ => NothingMatches(base);
  }

  lemma {:induction false} CallReportsForbidden(e: Expr, around: seq<Expr>, base: seq<Visibility>)
    requires WellFormed(e) && e.Call? && Written(around)
    ensures Matches(Report(e, Opened(around), base + Names(around)), Sites(e, around), base)
    decreases e, 1
  {
    hide Matches, Allowed, FullPath, IsEffect, Names, Opened, Written, ReportAll, SitesAll, AllWellFormed;
    Inside(around, e, base);
    var (b, p, inner) := (Opened(around), base + Names(around), around + [e]);
    assert b + [] == b && p + [] == p;
    EffectOfCall(e);
    var made := if e.createsInstance && !Allowed(b) then [ConstructorDestructor(FullPath(p))] else [];
    var here := if IsEffect(e) && !Allowed(b) then [HasEffect(e, FullPath(p))] else [];
    MadeMatches(e, around, base);
    ReportsForbidden(e.obj, inner, base);
    MatchesConcat(made, [Made(e, around)], Report(e.obj, b, p), Sites(e.obj, inner), base);
    UsedMatches(e, around, base);
    MatchesConcat(made + Report(e.obj, b, p), [Made(e, around)] + Sites(e.obj, inner), here, [Used(e, around)], base);
    ReportsForbiddenAll(e.posArgs, inner, base);
    MatchesConcat(made + Report(e.obj, b, p) + here, [Made(e, around)] + Sites(e.obj, inner) + [Used(e, around)],
      ReportAll(e.posArgs, b, p), SitesAll(e.posArgs, inner), base);
    ReportsForbiddenAll(e.kwArgs, inner, base);
    MatchesConcat(made + Report(e.obj, b, p) + here + ReportAll(e.posArgs, b, p),
      [Made(e, around)] + Sites(e.obj, inner) + [Used(e, around)] + SitesAll(e.posArgs, inner),
      ReportAll(e.kwArgs, b, p), SitesAll(e.kwArgs, inner), base);
  }

  lemma NamedMatches(e: Expr, around: seq<Expr>, base: seq<Visibility>)
    requires WellFormed(e) && e.Def?
    ensures Matches(
              if BlockOf(e.sig) == Instant && !e.sig.isProcedural && e.body != [] && IsProcedure(e.body[|e.body| - 1])
              then [ProcAssign(PathTo(around, base))] else [], [Named(e, around)], base)
  {
    hide FullPath, Names, IsProcedure, Matches, ParamsWellFormed, AllWellFormed;
    OneMatches(Verdict(Named(e, around), base), Named(e, around), base);
  }

  lemma {:induction false} DefReportsForbidden(e: Expr, around: seq<Expr>, base: seq<Visibility>)
    requires WellFormed(e) && e.Def? && Written(around)
    ensures Matches(Report(e, Opened(around), base + Names(around)), Sites(e, around), base)
    decreases e, 1
  {
    hide Matches, FullPath, IsProcedure, Names, Opened, Written, ReportAll, ReportParams, SitesAll, SitesParams, AllWellFormed,
      ParamsWellFormed;
    Inside(around, e, base);
    var inner := around + [e];
    var (b, p) := (Opened(inner), base + Names(inner));
    assert base + Names(around) + [] == base + Names(around);
    var params := if e.sig.isSubr then ReportParams(e.params, b, p) else [];
    var paramSites := if e.sig.isSubr then SitesParams(e.params, inner) else [];
    var named :=
      if BlockOf(e.sig) == Instant && !e.sig.isProcedural && e.body != [] && IsProcedure(e.body[|e.body| - 1])
      then [ProcAssign(FullPath(p))] else [];
    if e.sig.isSubr {
      ReportsForbiddenParams(e.params, inner, base);
    } else {
      NothingMatches(base);
    }
    ReportsForbiddenAll(e.body, inner, base);
    MatchesConcat(params, paramSites, ReportAll(e.body, b, p), SitesAll(e.body, inner), base);
    NamedMatches(e, around, base);
    MatchesConcat(params + ReportAll(e.body, b, p), paramSites + SitesAll(e.body, inner), named, [Named(e, around)], base);
  }

  lemma {:induction false} ReportsForbiddenAll(es: seq<Expr>, around: seq<Expr>, base: seq<Visibility>)
    requires AllWellFormed(es) && Written(around)
    ensures Matches(ReportAll(es, Opened(around), base + Names(around)), SitesAll(es, around), base)
    decreases es, 0
  {
    hide Matches, Report, Sites, Opened, Names, Written, WellFormed;
    var (b, p) := (Opened(around), base + Names(around));
    if es == [] {
      NothingMatches(base);
    } else {
      ReportsForbidden(es[0], around, base);
      ReportsForbiddenAll(es[1..], around, base);
      MatchesConcat(Report(es[0], b, p), Sites(es[0], around), ReportAll(es[1..], b, p), SitesAll(es[1..], around), base);
    }
  }

  lemma {:induction false} ReportsForbiddenParams(ps: seq<Param>, around: seq<Expr>, base: seq<Visibility>)
    requires ParamsWellFormed(ps) && Written(around)
    ensures Matches(ReportParams(ps, Opened(around), base + Names(around)), SitesParams(ps, around), base)
    decreases ps, 1
  {
    hide Matches, ReportAll, SitesAll, FullPath, Opened, Names, Written, AllWellFormed;
    var (b, p) := (Opened(around), base + Names(around));
    if ps == [] {
      NothingMatches(base);
    } else {
      var taken := if ps[0].isProcedure && !ps[0].endsWithBang then [ProcAssign(FullPath(p))] else [];
      var errs, sites := ReportAll(ps[0].default, b, p), SitesAll(ps[0].default, around);
      OneMatches(taken, Taken(ps[0], around), base);
      ReportsForbiddenAll(ps[0].default, around, base);
      ReportsForbiddenParams(ps[1..], around, base);
      MatchesConcat(taken, [Taken(ps[0], around)], errs, sites, base);
      MatchesConcat(taken + errs, [Taken(ps[0], around)] + sites, ReportParams(ps[1..], b, p), SitesParams(ps[1..], around), base);
    }
  }

  // ---- the visited places are those of the tree ----

  /** From the outermost expression around a site down to the one it belongs to. */
  function Way(s: Site): seq<Expr> {
    if s.Taken? then s.around else s.around + [s.expr]
  }

  predicate Proper(s: Site) {
    match s
    case Made(e, _) => e.Call?
    case Used(e, _) => e.Call? || e.BinOp? || e.Accessor?
    case Named(e, _) => e.Def?
    case Taken(p, around) => around != [] && p in ParamsOf(around[|around| - 1])
  }

  /** After `pre`, the site is in `e`, and visited parts lead to it. */
  ghost predicate Led(s: Site, e: Expr, pre: seq<Expr>) {
    var c := Way(s);
    Proper(s) && pre < c && c[|pre|] == e && forall i {:trigger c[i]} :: |pre| < i < |c| ==> VisitedPart(c[i], c[i - 1])
  }

  lemma LedFurther(s: Site, part: Expr, e: Expr, pre: seq<Expr>)
    requires Led(s, part, pre + [e]) && VisitedPart(part, e)
    ensures Led(s, e, pre)
  {
    hide VisitedPart, Proper;
  }

  lemma {:induction false} SiteOfElement(s: Site, es: seq<Expr>, around: seq<Expr>) returns (part: Expr)
    requires s in SitesAll(es, around)
    ensures part in es && s in Sites(part, around)
    decreases |es|
  {
    hide Sites;
    if s in Sites(es[0], around) {
      part := es[0];
    } else {
      part := SiteOfElement(s, es[1..], around);
    }
  }

  /** A site of parameters is one of them, or in a default value. */
  lemma {:induction false} SiteOfParams(s: Site, ps: seq<Param>, around: seq<Expr>) returns (p: Param, part: Option<Expr>)
    requires s in SitesParams(ps, around)
    ensures p in ps
    ensures if part.None? then s == Taken(p, around) else part.value in p.default && s in Sites(part.value, around)
    decreases |ps|
  {
    hide Sites, SitesAll;
    if s == Taken(ps[0], around) {
      p, part := ps[0], None;
    } else if s in SitesAll(ps[0].default, around) {
      var x := SiteOfElement(s, ps[0].default, around);
      p, part := ps[0], Some(x);
    } else {
      p, part := SiteOfParams(s, ps[1..], around);
    }
  }

  /** A site of an expression is its own, or that of a visited part. */
  lemma SiteOfPart(s: Site, e: Expr, pre: seq<Expr>) returns (part: Option<Expr>)
    requires s in Sites(e, pre)
    ensures if part.None? then Proper(s) && Way(s) == pre + [e]
            else VisitedPart(part.value, e) && s in Sites(part.value, pre + [e])
  {
    hide SitesAll, SitesParams;
    var inner := pre + [e];
    part := None;
    if !s.Taken? && s.expr == e && s.around == pre && Proper(s) {
      return;
    }
    if s in SitesParams(ParamsOf(e), inner) {
      var p;
      p, part := SiteOfParams(s, ParamsOf(e), inner);
      assert inner[|inner| - 1] == e && p in ParamsOf(e);
      return;
    }
    var x := e;
    match e {
      case Call(obj, _, _, _, posArgs, _, kwArgs) =>
        if s in Sites(obj, inner) {
          x := obj;
        } else if s in SitesAll(posArgs, inner) {
          x := SiteOfElement(s, posArgs, inner);
        } else {
          x := SiteOfElement(s, kwArgs, inner);
        }
      case BinOp(_, lhs, rhs) => x := if s in Sites(lhs, inner) then lhs else rhs;
      case UnaryOp(operand) => x := operand;
      case Collection(elems) => x := SiteOfElement(s, elems, inner);
      case Lambda(_, _, body) => x := SiteOfElement(s, body, inner);
      case Def(_, _, body) => x := SiteOfElement(s, body, inner);
      case Record(attrs) => x := SiteOfElement(s, attrs, inner);
      case Class(bases, methods) =>
        if s in SitesAll(bases, inner) {
          x := SiteOfElement(s, bases, inner);
        } else {
          x := SiteOfElement(s, methods, inner);
        }
      case TypeAsc(expr) => x := expr;
    }
    part := Some(x);
  }

  lemma PartIsSmaller(part: Expr, e: Expr)
    requires VisitedPart(part, e)
    ensures part < e
  {
  }

  lemma {:induction false} SiteIsLed(s: Site, e: Expr, pre: seq<Expr>)
    requires s in Sites(e, pre)
    ensures Led(s, e, pre)
    decreases e
  {
    hide Sites, VisitedPart, Proper;
    var part := SiteOfPart(s, e, pre);
    if part.Some? {
      hide Led;
      PartIsSmaller(part.value, e);
      SiteIsLed(s, part.value, pre + [e]);
      LedFurther(s, part.value, e, pre);
    }
  }

  lemma {:induction false} ElementSites(part: Expr, es: seq<Expr>, around: seq<Expr>, s: Site)
    requires part in es && s in Sites(part, around)
    ensures s in SitesAll(es, around)
    decreases |es|
  {
    hide Sites;
    if part != es[0] {
      ElementSites(part, es[1..], around, s);
    }
  }

  lemma {:induction false} ParamSites(p: Param, ps: seq<Param>, around: seq<Expr>, s: Site)
    requires p in ps && (s == Taken(p, around) || exists part :: part in p.default && s in Sites(part, around))
    ensures s in SitesParams(ps, around)
    decreases |ps|
  {
    hide Sites, SitesAll;
    if p != ps[0] {
      ParamSites(p, ps[1..], around, s);
    } else if part :| part in p.default && s in Sites(part, around) {
      ElementSites(part, p.default, around, s);
    }
  }

  lemma PartSites(part: Expr, e: Expr, pre: seq<Expr>, s: Site)
    requires VisitedPart(part, e) && s in Sites(part, pre + [e])
    ensures s in Sites(e, pre)
  {
    hide SitesAll, SitesParams;
    var inner := pre + [e];
    if p :| p in ParamsOf(e) && part in p.default {
      ParamSites(p, ParamsOf(e), inner, s);
      return;
    }
    match e
    case Call(obj, _, _, _, posArgs, _, kwArgs) =>
      if part in posArgs {
        ElementSites(part, posArgs, inner, s);
      } else if part in kwArgs {
        ElementSites(part, kwArgs, inner, s);
      }
    case Collection(elems) => ElementSites(part, elems, inner, s);
    case Lambda(_, _, body) => ElementSites(part, body, inner, s);
    case Def(_, _, body) => ElementSites(part, body, inner, s);
    case Record(attrs) => ElementSites(part, attrs, inner, s);
    case Class(bases, methods) =>
      if part in bases {
        ElementSites(part, bases, inner, s);
      } else {
        ElementSites(part, methods, inner, s);
      }
    case _ =>
  }

  lemma {:induction false} LedIsSite(s: Site, e: Expr, pre: seq<Expr>)
    requires Led(s, e, pre)
    ensures s in Sites(e, pre)
    decreases |Way(s)| - |pre|
  {
    hide Sites, VisitedPart, Proper;
    var c := Way(s);
    if |c| == |pre| + 1 {
      assert c == pre + [e];
      OwnSite(s, e, pre);
    } else {
      assert VisitedPart(c[|pre| + 1], c[|pre|]);
      LedIsSite(s, c[|pre| + 1], pre + [e]);
      PartSites(c[|pre| + 1], e, pre, s);
    }
  }

  lemma OwnSite(s: Site, e: Expr, pre: seq<Expr>)
    requires Proper(s) && Way(s) == pre + [e]
    ensures s in Sites(e, pre)
  {
    hide SitesAll, SitesParams;
    if s.Taken? {
      ParamSites(s.param, ParamsOf(e), pre + [e], s);
    } else {
      assert s.around == Way(s)[..|pre|] == pre && s.expr == Way(s)[|pre|] == e;
    }
  }

  lemma {:induction false} InVerdicts(sites: seq<Site>, base: seq<Visibility>, err: EffectError)
    ensures err in Verdicts(sites, base) <==> exists s :: s in sites && err in Verdict(s, base)
  {
    hide Verdict;
    if sites != [] {
      InVerdicts(sites[1..], base, err);
      assert forall s :: s in sites <==> s == sites[0] || s in sites[1..];
    }
  }

  lemma VerdictIsCulprit(s: Site, base: seq<Visibility>, err: EffectError) returns (x: Expr, around: seq<Expr>)
    requires Proper(s) && err in Verdict(s, base)
    ensures Way(s) == around + [x] && Culprit(x, around, base, err)
  {
    hide InFunction, PathTo, NamesProcedure, TakesProcedure, IsForeign;
    if s.Taken? {
      var n := |s.around| - 1;
      x, around := s.around[n], s.around[..n];
      assert around + [x] == s.around;
    } else {
      x, around := s.expr, s.around;
    }
  }

  lemma CulpritHasVerdict(x: Expr, around: seq<Expr>, base: seq<Visibility>, err: EffectError) returns (s: Site)
    requires Culprit(x, around, base, err)
    ensures Proper(s) && Way(s) == around + [x] && err in Verdict(s, base)
  {
    hide InFunction, FullPath, Names, IsProcedure;
    match err
    case HasEffect(_, _) => s := Used(x, around);
    case TouchMut(_, _) => s := Used(x, around);
    case ConstructorDestructor(_) => s := Made(x, around);
    case ProcAssign(path) =>
      if NamesProcedure(x) && path == PathTo(around, base) {
        s := Named(x, around);
      } else {
        var p :| p in ParamsOf(x) && TakesProcedure(p);
        s := Taken(p, around + [x]);
      }
  }

  /** From the outermost, a site is led to exactly like the expression it belongs to. */
  lemma LedFromOutside(s: Site, e: Expr, around: seq<Expr>, x: Expr)
    requires Proper(s) && Way(s) == around + [x]
    ensures Led(s, e, []) <==> LeadsTo(e, around, x)
  {
    hide VisitedPart, Proper, Way;
    assert [] < around + [x];
  }

  lemma ReportHasCulprit(e: Expr, base: seq<Visibility>, err: EffectError) returns (x: Expr, around: seq<Expr>)
    requires err in Verdicts(Sites(e, []), base)
    ensures LeadsTo(e, around, x) && Culprit(x, around, base, err)
  {
    hide *;
    InVerdicts(Sites(e, []), base, err);
    var s :| s in Sites(e, []) && err in Verdict(s, base);
    SiteIsLed(s, e, []);
    LedIsProper(s, e, []);
    x, around := VerdictIsCulprit(s, base, err);
    LedFromOutside(s, e, around, x);
  }

  lemma LedIsProper(s: Site, e: Expr, pre: seq<Expr>)
    requires Led(s, e, pre)
    ensures Proper(s)
  {
  }

  lemma CulpritIsReported(e: Expr, base: seq<Visibility>, err: EffectError, x: Expr, around: seq<Expr>)
    requires LeadsTo(e, around, x) && Culprit(x, around, base, err)
    ensures err in Verdicts(Sites(e, []), base)
  {
    hide *;
    var s := CulpritHasVerdict(x, around, base, err);
    LedFromOutside(s, e, around, x);
    LedIsSite(s, e, []);
    InVerdicts(Sites(e, []), base, err);
  }

  lemma ReportedVerdicts(e: Expr, base: seq<Visibility>)
    requires WellFormed(e)
    ensures Report(e, [Module], base) == Verdicts(Sites(e, []), base)
  {
    hide Report, WellFormed, Sites, Verdicts;
    assert base + [] == base;
    ReportsForbidden(e, [], base);
  }

  /**
   Which errors are reported, for every tree and place, told by the tree alone. Effects, foreign mutable variables and
   constructors: at module level and in procedures none, in functions all but those below two variables or records.
   */
  lemma ReportedIff(e: Expr, base: seq<Visibility>, err: EffectError)
    requires WellFormed(e)
    ensures err in Report(e, [Module], base) <==> exists x, around :: LeadsTo(e, around, x) && Culprit(x, around, base, err)
  {
    hide *;
    ReportedVerdicts(e, base);
    if err in Report(e, [Module], base) {
      var x, around := ReportHasCulprit(e, base, err);
    } else if x, around :| LeadsTo(e, around, x) && Culprit(x, around, base, err) {
      CulpritIsReported(e, base, err, x, around);
    }
  }

  // ---- effects only ----

  /** The expressions that were reported for having an effect. */
  function Effectful(errs: seq<EffectError>): seq<Expr> {
    if errs == [] then [] else (if errs[0].HasEffect? then [errs[0].expr] else []) + Effectful(errs[1..])
  }

  lemma {:induction false} EffectfulConcat(a: seq<EffectError>, b: seq<EffectError>)
    ensures Effectful(a + b) == Effectful(a) + Effectful(b)
  {
    if a == [] {
      assert a + b == b;
    } else {
      EffectfulConcat(a[1..], b);
      assert (a + b)[1..] == a[1..] + b && (a + b)[0] == a[0];
      Regrouped(if a[0].HasEffect? then [a[0].expr] else [], Effectful(a[1..]), Effectful(b));
    }
  }

  // ---- what acceptance means ----

  /** The documented rule: effects are for procedures and modules, and instant blocks belong to what is around them. */
  predicate Intended(blocks: seq<BlockKind>)
    requires blocks != []
  {
    var top := blocks[|blocks| - 1];
    if top == Instant && |blocks| > 1 then Intended(blocks[..|blocks| - 1]) else top == Proc || top == Module
  }

  /** The checked rule is the documented one, but for two directly nested instant blocks, where everything goes. */
  lemma AllowedIffIntended(blocks: seq<BlockKind>)
    requires blocks != [] && blocks[0] == Module && Module !in blocks[1..]
    ensures Allowed(blocks) <==>
              Intended(blocks) || (|blocks| > 1 && blocks[|blocks| - 2] == Instant && blocks[|blocks| - 1] == Instant)
  {
  }

  /**
   The events of running an expression that no report can stop: those of parts the checker does not visit
   (unpacked arguments, code and compound blocks) and those below two nested instant blocks.
   `depth` counts the instant blocks around the expression.
   */
  function Missed(e: Expr, depth: nat): nat
    decreases e, 1
  {
    if depth >= 2 then Optimize.Effects(e)
    else
      match e
      case Call(obj, _, _, _, posArgs, varArgs, kwArgs) =>
        Missed(obj, depth) + MissedAll(posArgs, depth) + Optimize.EffectsAll(varArgs) + MissedAll(kwArgs, depth)
      case BinOp(_, lhs, rhs) => Missed(lhs, depth) + Missed(rhs, depth)
      case UnaryOp(operand) => Missed(operand, depth)
      case Collection(elems) => MissedAll(elems, depth)
      case Def(sig, _, body) =>
        if sig.isSubr then 0 else MissedAll(body, if sig.isConst then 0 else depth + 1)
      case Record(attrs) => MissedAll(attrs, depth + 1)
      case Class(bases, _) => MissedAll(bases, depth)
      case TypeAsc(expr) => Missed(expr, depth)
      case Code(block) => Optimize.EffectsAll(block)
      case Compound(block) => Optimize.EffectsAll(block)
      case _ => 0
  }

  function MissedAll(es: seq<Expr>, depth: nat): nat
    decreases es, 0
  {
    if es == [] then 0 else Missed(es[0], depth) + MissedAll(es[1..], depth)
  }

  /** The innermost `depth` blocks are instant, in a block where effects are not allowed. */
  predicate Within(blocks: seq<BlockKind>, depth: nat) {
    && |blocks| > depth + 1
    && blocks[|blocks| - 1 - depth] in {Func, ConstFunc, ConstInstant}
    && (forall i :: |blocks| - depth <= i < |blocks| ==> blocks[i] == Instant)
  }

  lemma WithinForbids(blocks: seq<BlockKind>, depth: nat)
    requires Within(blocks, depth) && depth < 2
    ensures !Allowed(blocks)
  {
  }

  lemma {:induction false} NoneEffectful(parts: seq<EffectError>, more: seq<EffectError>)
    requires Effectful(parts + more) == []
    ensures Effectful(parts) == [] && Effectful(more) == []
  {
    EffectfulConcat(parts, more);
  }

  lemma OneEffectful(e: Expr, path: string)
    ensures Effectful([HasEffect(e, path)]) == [e]
  {
  }

  /** An accepted expression in a function has no other events than those the checker is bound to miss. */
  lemma {:induction false} AcceptedEffects(e: Expr, blocks: seq<BlockKind>, paths: seq<Visibility>, depth: nat)
    requires blocks != [] && WellFormed(e) && Within(blocks, depth) && Effectful(Report(e, blocks, paths)) == []
    ensures Optimize.Effects(e) == Missed(e, depth)
    decreases e, 1
  {
    hide Allowed, FullPath, Touches, Effectful, Within, ReportAll, ReportParams, IsEffect, AllWellFormed, ParamsWellFormed;
    if depth < 2 {
      match e
      case Call(obj, _, _, createsInstance, posArgs, _, kwArgs) =>
        WithinForbids(blocks, depth);
        CallPartsAccepted(e, blocks, paths);
        AcceptedEffects(obj, blocks, paths, depth);
        AcceptedEffectsAll(posArgs, blocks, paths, depth);
        AcceptedEffectsAll(kwArgs, blocks, paths, depth);
      case BinOp(_, lhs, rhs) =>
        BinOpPartsAccepted(e, blocks, paths);
        AcceptedEffects(lhs, blocks, paths, depth);
        AcceptedEffects(rhs, blocks, paths, depth);
      case UnaryOp(operand) => AcceptedEffects(operand, blocks, paths, depth);
      case Collection(elems) => AcceptedEffectsAll(elems, blocks, paths, depth);
      case Def(sig, _, body) =>
        if !sig.isSubr {
          DefBodyAccepted(e, blocks, paths, depth);
          AcceptedEffectsAll(body, blocks + [BlockOf(sig)], paths, if sig.isConst then 0 else depth + 1);
        }
      case Record(attrs) =>
        WithinInstant(blocks, depth);
        AcceptedEffectsAll(attrs, blocks + [Instant], paths + [Visibility(false, "<record>")], depth + 1);
      case Class(bases, methods) =>
        NoneEffectful(ReportAll(bases, blocks, paths), ReportAll(methods, blocks, paths));
        AcceptedEffectsAll(bases, blocks, paths, depth);
      case TypeAsc(expr) => AcceptedEffects(expr, blocks, paths, depth);
      case _ =>
    }
  }

  lemma WithinInstant(blocks: seq<BlockKind>, depth: nat)
    requires Within(blocks, depth)
    ensures Within(blocks + [Instant], depth + 1)
  {
  }

  lemma BinOpPartsAccepted(e: Expr, blocks: seq<BlockKind>, paths: seq<Visibility>)
    requires blocks != [] && e.BinOp? && WellFormed(e) && Effectful(Report(e, blocks, paths)) == []
    ensures Effectful(Report(e.lhs, blocks, paths)) == [] && Effectful(Report(e.rhs, blocks, paths)) == []
  {
    hide Allowed, FullPath, Effectful;
    var last := if e.isIdentityTest && !Allowed(blocks) then [HasEffect(e, FullPath(paths))] else [];
    NoneEffectful(Report(e.lhs, blocks, paths) + Report(e.rhs, blocks, paths), last);
    NoneEffectful(Report(e.lhs, blocks, paths), Report(e.rhs, blocks, paths));
  }

  lemma DefBodyAccepted(e: Expr, blocks: seq<BlockKind>, paths: seq<Visibility>, depth: nat)
    requires blocks != [] && e.Def? && !e.sig.isSubr && WellFormed(e) && Within(blocks, depth)
    requires Effectful(Report(e, blocks, paths)) == []
    ensures Effectful(ReportAll(e.body, blocks + [BlockOf(e.sig)], paths)) == []
    ensures Within(blocks + [BlockOf(e.sig)], if e.sig.isConst then 0 else depth + 1)
  {
    hide FullPath, Effectful, ReportAll, ReportParams, AllWellFormed;
    var b := blocks + [BlockOf(e.sig)];
    assert [] + ReportAll(e.body, b, paths) == ReportAll(e.body, b, paths);
    NoneEffectful(ReportAll(e.body, b, paths), Report(e, blocks, paths)[|ReportAll(e.body, b, paths)|..]);
  }

  lemma CallPartsAccepted(e: Expr, blocks: seq<BlockKind>, paths: seq<Visibility>)
    requires blocks != [] && e.Call? && WellFormed(e) && !Allowed(blocks) && Effectful(Report(e, blocks, paths)) == []
    ensures !IsEffect(e) && Effectful(Report(e.obj, blocks, paths)) == []
    ensures Effectful(ReportAll(e.posArgs, blocks, paths)) == [] && Effectful(ReportAll(e.kwArgs, blocks, paths)) == []
  {
    hide Allowed, FullPath, ReportAll, IsEffect, Effectful;
    var made := if e.createsInstance then [ConstructorDestructor(FullPath(paths))] else [];
    var here := if IsEffect(e) then [HasEffect(e, FullPath(paths))] else [];
    var obj, pos, kw := Report(e.obj, blocks, paths), ReportAll(e.posArgs, blocks, paths), ReportAll(e.kwArgs, blocks, paths);
    NoneEffectful(made + obj + here + pos, kw);
    NoneEffectful(made + obj + here, pos);
    NoneEffectful(made + obj, here);
    NoneEffectful(made, obj);
    OneEffectful(e, FullPath(paths));
  }

  lemma {:induction false} AcceptedEffectsAll(es: seq<Expr>, blocks: seq<BlockKind>, paths: seq<Visibility>, depth: nat)
    requires blocks != [] && AllWellFormed(es) && Within(blocks, depth) && Effectful(ReportAll(es, blocks, paths)) == []
    ensures Optimize.EffectsAll(es) == MissedAll(es, depth)
    decreases es, 0
  {
    hide Within, Effectful, Report;
    if es != [] {
      NoneEffectful(Report(es[0], blocks, paths), ReportAll(es[1..], blocks, paths));
      AcceptedEffects(es[0], blocks, paths, depth);
      AcceptedEffectsAll(es[1..], blocks, paths, depth);
    }
  }

  /** So running the body of an accepted function causes exactly the events the checker is bound to miss. */
  lemma AcceptedFunction(def: Expr, blocks: seq<BlockKind>, paths: seq<Visibility>, env: Optimize.Env)
    requires blocks != [] && def.Def? && def.sig.isSubr && !def.sig.isProcedural && WellFormed(def)
    requires Effectful(Report(def, blocks, paths)) == []
    ensures |Optimize.Trace(Optimize.RunAll(def.body, env).steps)| == MissedAll(def.body, 0)
  {
    hide Effectful, FullPath, Optimize.RunAll, MissedAll;
    var b, p := blocks + [BlockOf(def.sig)], paths + [Visibility(def.sig.isPublic, def.sig.name)];
    var params, body := ReportParams(def.params, b, p), ReportAll(def.body, b, p);
    assert Report(def, blocks, paths) == params + body + [];
    NoneEffectful(params + body, []);
    NoneEffectful(params, body);
    AcceptedEffectsAll(def.body, b, p, 0);
    Optimize.EffectsCountAll(def.body, env);
  }

  lemma OneExpr(e: Expr, blocks: seq<BlockKind>, paths: seq<Visibility>)
    requires blocks != []
    ensures AllWellFormed([e]) == WellFormed(e) && Optimize.EffectsAll([e]) == Optimize.Effects(e)
    ensures WellFormed(e) ==> ReportAll([e], blocks, paths) == Report(e, blocks, paths)
  {
  }

  /** A record in a function: the effect of its attribute is accepted, and it happens. */
  lemma EffectInRecord(callee: VarInfo, attr: Signature, paths: seq<Visibility>)
    requires callee.isProcedure && !callee.isMutable && !attr.isSubr && !attr.isConst
    ensures var call := Call(Accessor(callee), false, false, false, [], [], []);
            var e := Record([Def(attr, [], [call])]);
            && WellFormed(e) && Report(e, [Module, Func], paths) == []
            && |Optimize.Run(e, map[]).step.trace| == 1
  {
    var call := Call(Accessor(callee), false, false, false, [], [], []);
    var d := Def(attr, [], [call]);
    var p := paths + [Visibility(false, "<record>")];
    OneExpr(call, [Module, Func] + [Instant] + [Instant], p);
    OneExpr(d, [Module, Func] + [Instant], p);
    assert Allowed([Module, Func] + [Instant] + [Instant]);
    Optimize.EffectsCount(Record([d]), map[]);
  }
}
