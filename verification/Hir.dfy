/** The part of the typed intermediate representation that the optimizer and the effect checker look at. */
module Hir {

  /** What the checker asks about a variable: is its type a procedure, and may touching it be an effect. */
  datatype VarInfo = VarInfo(id: nat, isProcedure: bool, isParameter: bool, isMutable: bool, rootIsRef: bool, namespace: string)

  /** A parameter; `default` has at most one element. */
  datatype Param = Param(id: nat, isProcedure: bool, endsWithBang: bool, default: seq<Expr>)

  datatype Signature = Signature(
    id: nat, name: string, isSubr: bool, isProcedural: bool, isConst: bool,
    isPublic: bool, isDiscarded: bool, isGlob: bool)

  /**
   `Collection` is a list, tuple, set or dictionary given by its elements in order.
   `Class` is a class or patch definition: its base expressions, then its methods.
   In a call, `attrIsProcedural` and `returnsProcedure` tell about the method name and the result type,
   and `createsInstance` that a new instance with a constructor or destructor is generated.
   */
  datatype Expr =
    | Literal(n: int)
    | Accessor(vi: VarInfo)
    | Call(obj: Expr, attrIsProcedural: bool, returnsProcedure: bool, createsInstance: bool,
           posArgs: seq<Expr>, varArgs: seq<Expr>, kwArgs: seq<Expr>)
    | BinOp(isIdentityTest: bool, lhs: Expr, rhs: Expr)
    | UnaryOp(operand: Expr)
    | Collection(elems: seq<Expr>)
    | Lambda(isProc: bool, params: seq<Param>, body: seq<Expr>)
    | Def(sig: Signature, params: seq<Param>, body: seq<Expr>)
    | Record(attrs: seq<Expr>)
    | Class(bases: seq<Expr>, methods: seq<Expr>)
    | TypeAsc(expr: Expr)
    | Code(block: seq<Expr>)
    | Compound(block: seq<Expr>)
    | Dummy

  /** Whether the type of an expression is a procedure. */
  predicate IsProcedure(e: Expr) {
    match e
    case Accessor(vi) => vi.isProcedure
    case Call(_, _, returnsProcedure, _, _, _, _) => returnsProcedure
    case Lambda(isProc, _, _) => isProc
    case TypeAsc(expr) => IsProcedure(expr)
    case _ => false
  }

  /** A call has an effect if what it calls is a procedure. */
  predicate IsEffect(e: Expr) {
    e.Call? && (e.attrIsProcedural || IsProcedure(e.obj))
  }

  /** The purity test used before a definition is dropped: a call counts if its result is a procedure. */
  predicate IsImpure(e: Expr)
    decreases e, 1
  {
    match e
    case Call(_, _, returnsProcedure, _, posArgs, varArgs, kwArgs) =>
      returnsProcedure || AnyImpure(posArgs) || AnyImpure(varArgs) || AnyImpure(kwArgs)
    case BinOp(_, lhs, rhs) => IsImpure(lhs) || IsImpure(rhs)
    case UnaryOp(operand) => IsImpure(operand)
    case Collection(elems) => AnyImpure(elems)
    case Lambda(isProc, _, body) => isProc || AnyImpure(body)
    case Def(sig, _, body) => sig.isProcedural || AnyImpure(body)
    case Code(block) => AnyImpure(block)
    case Compound(block) => AnyImpure(block)
    case _ => false
  }

  predicate AnyImpure(es: seq<Expr>)
    decreases es, 0
  {
    es != [] && (IsImpure(es[0]) || AnyImpure(es[1..]))
  }

  predicate IsPure(e: Expr) {
    !IsImpure(e)
  }
}
