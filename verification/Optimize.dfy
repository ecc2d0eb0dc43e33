/**
 Elimination of unused definitions, and what it does to the meaning of a program.
 Programs are run symbolically: a call is the application of its callee to its arguments, and it is an event
 if the callee is a procedure; the value of a function is what its body does, chunk by chunk.
 */
module Optimize {
  import opened Hir
  import opened Wrappers

  /** For every definition, the places that refer to it. */
  type Index = map<nat, set<nat>>

  predicate Unused(index: Index, id: nat) {
    id in index && index[id] == {}
  }

  /** The definitions the optimizer drops: private, named, unused and pure by its test. */
  predicate Drops(index: Index, e: Expr) {
    && e.Def? && !e.sig.isGlob && !e.sig.isDiscarded && !e.sig.isPublic
    && Unused(index, e.sig.id) && IsPure(e)
  }

  /** What the optimizer makes of an expression. It does not go into definitions it keeps. */
  function Eliminated(index: Index, e: Expr): Expr
    decreases e, 1
  {
    match e
    case Def(_, _, _) => if Drops(index, e) then Dummy else e
    case Call(_, _, _, _, posArgs, _, _) => e.(posArgs := EliminatedAll(index, posArgs))
    case Code(block) => Code(EliminatedAll(index, block))
    case Compound(block) => Compound(EliminatedAll(index, block))
    case Lambda(isProc, params, body) => Lambda(isProc, params, EliminatedAll(index, body))
    case _ => e
  }

  function EliminatedAll(index: Index, es: seq<Expr>): (r: seq<Expr>)
    ensures |r| == |es|
    decreases es, 0
  {
    if es == [] then [] else [Eliminated(index, es[0])] + EliminatedAll(index, es[1..])
  }

  lemma {:induction false} EliminatedAllAt(index: Index, es: seq<Expr>, i: nat)
    requires i < |es|
    ensures EliminatedAll(index, es)[i] == Eliminated(index, es[i])
  {
    if i > 0 {
      EliminatedAllAt(index, es[1..], i - 1);
    }
  }

  // ---- exactly what goes, at every place of a tree ----

  /** The purity test looks at `part` when it looks at `whole`; not at what a call calls. */
  predicate TestedPart(part: Expr, whole: Expr) {
    match whole
    case Call(_, _, _, _, posArgs, varArgs, kwArgs) => part in posArgs || part in varArgs || part in kwArgs
    case BinOp(_, lhs, rhs) => part == lhs || part == rhs
    case UnaryOp(operand) => part == operand
    case Collection(elems) => part in elems
    case Lambda(_, _, body) => part in body
    case Def(_, _, body) => part in body
    case Code(block) => part in block
    case Compound(block) => part in block
    case _ => false
  }

  /** A call that returns a procedure, a procedural lambda or a procedural definition. */
  predicate IsMarked(e: Expr) {
    match e
    case Call(_, _, returnsProcedure, _, _, _, _) => returnsProcedure
    case Lambda(isProc, _, _) => isProc
    case Def(sig, _, _) => sig.isProcedural
    case _ => false
  }

  /** From `e` inwards to one of these, each a tested part of the one before. */
  predicate LeadsToProcedure(e: Expr, c: seq<Expr>) {
    && c != [] && c[0] == e && IsMarked(c[|c| - 1])
    && forall i {:trigger c[i]} :: 0 < i < |c| ==> TestedPart(c[i], c[i - 1])
  }

  lemma LeadsFurther(e: Expr, part: Expr, c: seq<Expr>)
    requires LeadsToProcedure(part, c) && TestedPart(part, e)
    ensures LeadsToProcedure(e, [e] + c)
  {
    hide TestedPart, IsMarked;
  }

  /** An impure expression is marked, or has an impure part. */
  lemma ImpureHasPart(e: Expr) returns (part: Expr)
    requires IsImpure(e) && !IsMarked(e)
    ensures TestedPart(part, e) && IsImpure(part) && part < e
  {
    match e
    case Call(_, _, _, _, posArgs, varArgs, kwArgs) =>
      part := ImpureAmong(if AnyImpure(posArgs) then posArgs else if AnyImpure(varArgs) then varArgs else kwArgs);
    case BinOp(_, lhs, rhs) => part := if IsImpure(lhs) then lhs else rhs;
    case UnaryOp(operand) => part := operand;
    case Collection(elems) => part := ImpureAmong(elems);
    case Lambda(_, _, body) => part := ImpureAmong(body);
    case Def(_, _, body) => part := ImpureAmong(body);
    case Code(block) => part := ImpureAmong(block);
    case Compound(block) => part := ImpureAmong(block);
  }

  lemma {:induction false} ImpureAmong(es: seq<Expr>) returns (e: Expr)
    requires AnyImpure(es)
    ensures e in es && IsImpure(e)
  {
    hide IsImpure;
    if IsImpure(es[0]) {
      e := es[0];
    } else {
      e := ImpureAmong(es[1..]);
    }
  }

  lemma {:induction false} ImpureLeads(e: Expr) returns (c: seq<Expr>)
    requires IsImpure(e)
    ensures LeadsToProcedure(e, c)
    decreases e
  {
    hide IsImpure, TestedPart;
    if IsMarked(e) {
      c := [e];
    } else {
      hide IsMarked, LeadsToProcedure;
      var part := ImpureHasPart(e);
      c := ImpureLeads(part);
      LeadsFurther(e, part, c);
      c := [e] + c;
    }
  }

  lemma {:induction false} ImpureElement(es: seq<Expr>, e: Expr)
    requires e in es && IsImpure(e)
    ensures AnyImpure(es)
  {
    hide IsImpure;
    if e != es[0] {
      ImpureElement(es[1..], e);
    }
  }

  lemma LeadsOneLess(e: Expr, c: seq<Expr>)
    requires LeadsToProcedure(e, c) && |c| > 1
    ensures TestedPart(c[1], e) && LeadsToProcedure(c[1], c[1..])
  {
    hide TestedPart, IsMarked;
    assert TestedPart(c[1], c[0]);
    forall i {:trigger c[1..][i]} | 0 < i < |c| - 1
      ensures TestedPart(c[1..][i], c[1..][i - 1])
    {
      assert TestedPart(c[i + 1], c[i]);
    }
  }

  lemma {:induction false} LeadsIsImpure(e: Expr, c: seq<Expr>)
    requires LeadsToProcedure(e, c)
    ensures IsImpure(e)
    decreases |c|
  {
    hide TestedPart;
    if |c| > 1 {
      hide IsImpure, IsMarked;
      LeadsOneLess(e, c);
      LeadsIsImpure(c[1], c[1..]);
      ImpurePart(c[1], e);
    }
  }

  lemma ImpurePart(part: Expr, e: Expr)
    requires TestedPart(part, e) && IsImpure(part)
    ensures IsImpure(e)
  {
    hide AnyImpure;
    match e
    case Call(_, _, _, _, posArgs, varArgs, kwArgs) =>
      ImpureElement(if part in posArgs then posArgs else if part in varArgs then varArgs else kwArgs, part);
    case Collection(elems) => ImpureElement(elems, part);
    case Lambda(_, _, body) => ImpureElement(body, part);
    case Def(_, _, body) => ImpureElement(body, part);
    case Code(block) => ImpureElement(block, part);
    case Compound(block) => ImpureElement(block, part);
    case _ =>
  }

  /** A definition that is not the optimizer's to drop, told by its flags, its references and its parts. */
  ghost predicate MustStay(index: Index, d: Expr)
    requires d.Def?
  {
    || d.sig.isPublic || d.sig.isDiscarded || d.sig.isGlob
    || d.sig.id !in index || (exists r :: r in index[d.sig.id])
    || exists c :: LeadsToProcedure(d, c)
  }

  lemma DropsIff(index: Index, d: Expr)
    requires d.Def?
    ensures Drops(index, d) <==> !MustStay(index, d)
  {
    hide LeadsToProcedure;
    if IsImpure(d) {
      var c := ImpureLeads(d);
    } else if c :| LeadsToProcedure(d, c) {
      LeadsIsImpure(d, c);
    }
  }

  /** The parts the optimizer goes into. */
  function Parts(e: Expr): seq<Expr> {
    match e
    case Call(_, _, _, _, posArgs, _, _) => posArgs
    case Code(block) => block
    case Compound(block) => block
    case Lambda(_, _, body) => body
    case _ => []
  }

  function WithParts(e: Expr, parts: seq<Expr>): Expr {
    match e
    case Call(_, _, _, _, _, _, _) => e.(posArgs := parts)
    case Code(_) => Code(parts)
    case Compound(_) => Compound(parts)
    case Lambda(isProc, params, _) => Lambda(isProc, params, parts)
    case _ => e
  }

  /** What is at a place, given by the number of the part at every level. */
  function PartAt(e: Expr, path: seq<nat>): Option<Expr>
    decreases |path|
  {
    if path == [] then Some(e)
    else if path[0] < |Parts(e)| then PartAt(Parts(e)[path[0]], path[1..])
    else None
  }

  /** A definition is there afterwards exactly if it must stay; anything else keeps all but its parts. */
  ghost predicate Treated(index: Index, before: Option<Expr>, after: Option<Expr>) {
    match before
    case None => after.None?
    case Some(x) =>
      && after.Some?
      && after.value == if x.Def? then if MustStay(index, x) then x else Dummy else WithParts(x, Parts(after.value))
  }

  /** At every place of every tree, what must stay is there, and all other definitions are gone. */
  lemma {:induction false} TreatedEverywhere(index: Index, e: Expr, path: seq<nat>)
    ensures Treated(index, PartAt(e, path), PartAt(Eliminated(index, e), path))
    decreases |path|
  {
    hide MustStay, Drops, EliminatedAll;
    if e.Def? {
      DropsIff(index, e);
    } else {
      hide Parts, Eliminated;
      PartsEliminated(index, e);
      if path != [] && path[0] < |Parts(e)| {
        EliminatedAllAt(index, Parts(e), path[0]);
        TreatedEverywhere(index, Parts(e)[path[0]], path[1..]);
      }
    }
  }

  lemma PartsEliminated(index: Index, e: Expr)
    requires !e.Def?
    ensures Parts(Eliminated(index, e)) == EliminatedAll(index, Parts(e))
    ensures Eliminated(index, e) == WithParts(e, Parts(Eliminated(index, e)))
  {
  }

  /** The optimizer on one list of chunks: every chunk is replaced where it stands. */
  method EliminateChunks(index: Index, chunks: array<Expr>)
    modifies chunks
    ensures chunks[..] == EliminatedAll(index, old(chunks[..]))
    ensures forall i, path :: 0 <= i < chunks.Length ==> Treated(index, PartAt(old(chunks[i]), path), PartAt(chunks[i], path))
  {
    hide Treated, PartAt, EliminatedAll, Eliminated;
    ghost var before := chunks[..];
    for i := 0 to chunks.Length
      invariant forall j :: 0 <= j < i ==> chunks[j] == Eliminated(index, before[j])
      invariant forall j :: i <= j < chunks.Length ==> chunks[j] == before[j]
    {
      chunks[i] := Eliminated(index, chunks[i]);
    }
    forall i | 0 <= i < chunks.Length
      ensures chunks[..][i] == EliminatedAll(index, before)[i]
    {
      EliminatedAllAt(index, before, i);
    }
    forall i, path | 0 <= i < chunks.Length
      ensures Treated(index, PartAt(before[i], path), PartAt(chunks[i], path))
    {
      TreatedEverywhere(index, before[i], path);
    }
  }

  // ---- running a program symbolically ----

  datatype Value =
    | Num(n: int)
    | Unit
    | Unbound(id: nat)
    | Argument(id: nat)
    | Apply(f: Value, args: seq<Value>)
    | Operation(args: seq<Value>)
    | Function(steps: seq<Step>)

  datatype Event = Event(f: Value, args: seq<Value>)

  /** What one chunk does: the value it has and the events it causes. */
  datatype Step = Step(value: Value, trace: seq<Event>)

  type Env = map<nat, Value>

  datatype Out = Out(step: Step, env: Env)

  datatype Outs = Outs(steps: seq<Step>, env: Env)

  function Lookup(env: Env, id: nat): Value {
    if id in env then env[id] else Unbound(id)
  }

  function WithParams(env: Env, params: seq<Param>): Env
    decreases |params|
  {
    if params == [] then env else WithParams(env[params[0].id := Argument(params[0].id)], params[1..])
  }

  function Values(steps: seq<Step>): seq<Value> {
    seq(|steps|, i requires 0 <= i < |steps| => steps[i].value)
  }

  function Trace(steps: seq<Step>): seq<Event> {
    if steps == [] then [] else steps[0].trace + Trace(steps[1..])
  }

  function LastValue(steps: seq<Step>): Value {
    if steps == [] then Unit else steps[|steps| - 1].value
  }

  function Run(e: Expr, env: Env): Out
    decreases e, 1
  {
    match e
    case Literal(n) => Out(Step(Num(n), []), env)
    case Accessor(vi) => Out(Step(Lookup(env, vi.id), []), env)
    case Call(obj, _, _, _, posArgs, varArgs, kwArgs) =>
      var f := Run(obj, env);
      var a := RunAll(posArgs, f.env);
      var b := RunAll(varArgs, a.env);
      var c := RunAll(kwArgs, b.env);
      var args := Values(a.steps) + Values(b.steps) + Values(c.steps);
      var before := f.step.trace + Trace(a.steps) + Trace(b.steps) + Trace(c.steps);
      Out(Step(Apply(f.step.value, args), if IsEffect(e) then before + [Event(f.step.value, args)] else before), c.env)
    case BinOp(_, lhs, rhs) =>
      var x := Run(lhs, env);
      var y := Run(rhs, x.env);
      Out(Step(Operation([x.step.value, y.step.value]), x.step.trace + y.step.trace), y.env)
    case UnaryOp(operand) =>
      var x := Run(operand, env);
      Out(Step(Operation([x.step.value]), x.step.trace), x.env)
    case Collection(elems) =>
      var xs := RunAll(elems, env);
      Out(Step(Operation(Values(xs.steps)), Trace(xs.steps)), xs.env)
    case Lambda(_, params, body) =>
      Out(Step(Function(RunAll(body, WithParams(env, params)).steps), []), env)
    case Def(sig, params, body) =>
      if sig.isSubr then
        var inner := WithParams(env[sig.id := Argument(sig.id)], params);
        Out(Step(Unit, []), env[sig.id := Function(RunAll(body, inner).steps)])
      else
        var xs := RunAll(body, env);
        Out(Step(Unit, Trace(xs.steps)), env[sig.id := LastValue(xs.steps)])
    case Record(attrs) =>
      var xs := RunAll(attrs, env);
      Out(Step(Operation(Fields(attrs, env)), Trace(xs.steps)), env)
    case Class(bases, methods) =>
      var xs := RunAll(bases, env);
      Out(Step(Operation(Values(xs.steps) + Fields(methods, xs.env)), Trace(xs.steps)), xs.env)
    case TypeAsc(expr) => Run(expr, env)
    case Code(block) =>
      var xs := RunAll(block, env);
      Out(Step(Operation(Values(xs.steps)), Trace(xs.steps)), xs.env)
    case Compound(block) =>
      var xs := RunAll(block, env);
      Out(Step(Operation(Values(xs.steps)), Trace(xs.steps)), xs.env)
    case Dummy => Out(Step(Unit, []), env)
  }

  function RunAll(es: seq<Expr>, env: Env): (r: Outs)
    ensures |r.steps| == |es|
    decreases es, 0
  {
    if es == [] then Outs([], env)
    else
      var x := Run(es[0], env);
      var xs := RunAll(es[1..], x.env);
      Outs([x.step] + xs.steps, xs.env)
  }

  /** The value of an expression, or the one that a definition gives its name. */
  function BoundValue(e: Expr, env: Env): Value
    decreases e, 2
  {
    if e.Def? then Lookup(Run(e, env).env, e.sig.id) else Run(e, env).step.value
  }

  /** What the attributes of a record or the methods of a class are bound to, one after the other. */
  function Fields(es: seq<Expr>, env: Env): seq<Value>
    decreases es, 0
  {
    if es == [] then [] else [BoundValue(es[0], env)] + Fields(es[1..], Run(es[0], env).env)
  }

  // ---- what the optimizer relies on ----

  /** No variable in the expression refers to a definition the index calls unused. */
  predicate IndexSound(index: Index, e: Expr)
    decreases e, 1
  {
    match e
    case Literal(_) => true
    case Accessor(vi) => !Unused(index, vi.id)
    case Call(obj, _, _, _, posArgs, varArgs, kwArgs) =>
      IndexSound(index, obj) && AllSound(index, posArgs) && AllSound(index, varArgs) && AllSound(index, kwArgs)
    case BinOp(_, lhs, rhs) => IndexSound(index, lhs) && IndexSound(index, rhs)
    case UnaryOp(operand) => IndexSound(index, operand)
    case Collection(elems) => AllSound(index, elems)
    case Lambda(_, _, body) => AllSound(index, body)
    case Def(_, _, body) => AllSound(index, body)
    case Record(attrs) => AllSound(index, attrs)
    case Class(bases, methods) => AllSound(index, bases) && AllSound(index, methods)
    case TypeAsc(expr) => IndexSound(index, expr)
    case Code(block) => AllSound(index, block)
    case Compound(block) => AllSound(index, block)
    case Dummy => true
  }

  predicate AllSound(index: Index, es: seq<Expr>)
    decreases es, 0
  {
    es == [] || (IndexSound(index, es[0]) && AllSound(index, es[1..]))
  }

  /** Two environments agree on every name but those in `diff`. */
  ghost predicate Agree(diff: set<nat>, env: Env, env': Env) {
    forall id :: id !in diff ==> Lookup(env, id) == Lookup(env', id)
  }

  ghost predicate AllUnused(index: Index, diff: set<nat>) {
    forall id :: id in diff ==> Unused(index, id)
  }

  /** The definitions the optimizer looks at whose names are known outside of the expression. */
  ghost function Outer(e: Expr): set<Expr>
    decreases e, 1
  {
    match e
    case Def(_, _, _) => {e}
    case Call(_, _, _, _, posArgs, _, _) => OuterAll(posArgs)
    case Code(block) => OuterAll(block)
    case Compound(block) => OuterAll(block)
    case _ => {}
  }

  ghost function OuterAll(es: seq<Expr>): set<Expr>
    decreases es, 0
  {
    if es == [] then {} else Outer(es[0]) + OuterAll(es[1..])
  }

  /** The names of the definitions that are dropped. */
  ghost function DroppedIds(index: Index, defs: set<Expr>): set<nat> {
    set d | d in defs && Drops(index, d) :: d.sig.id
  }

  lemma DroppedAreUnused(index: Index, defs: set<Expr>)
    ensures AllUnused(index, DroppedIds(index, defs))
  {
  }

  lemma DroppedUnion(index: Index, a: set<Expr>, b: set<Expr>)
    ensures DroppedIds(index, a + b) == DroppedIds(index, a) + DroppedIds(index, b)
  {
  }

  /** How many events running an expression causes; the same in every environment. */
  function Effects(e: Expr): nat
    decreases e, 1
  {
    match e
    case Call(obj, _, _, _, posArgs, varArgs, kwArgs) =>
      Effects(obj) + EffectsAll(posArgs) + EffectsAll(varArgs) + EffectsAll(kwArgs) + (if IsEffect(e) then 1 else 0)
    case BinOp(_, lhs, rhs) => Effects(lhs) + Effects(rhs)
    case UnaryOp(operand) => Effects(operand)
    case Collection(elems) => EffectsAll(elems)
    case Def(sig, _, body) => if sig.isSubr then 0 else EffectsAll(body)
    case Record(attrs) => EffectsAll(attrs)
    case Class(bases, _) => EffectsAll(bases)
    case TypeAsc(expr) => Effects(expr)
    case Code(block) => EffectsAll(block)
    case Compound(block) => EffectsAll(block)
    case _ => 0
  }

  function EffectsAll(es: seq<Expr>): nat
    decreases es, 0
  {
    if es == [] then 0 else Effects(es[0]) + EffectsAll(es[1..])
  }

  /** No definition that the optimizer drops causes an event. */
  predicate DropsSilently(index: Index, e: Expr)
    decreases e, 1
  {
    match e
    case Def(_, _, _) => Drops(index, e) ==> Effects(e) == 0
    case Call(_, _, _, _, posArgs, _, _) => AllDropSilently(index, posArgs)
    case Code(block) => AllDropSilently(index, block)
    case Compound(block) => AllDropSilently(index, block)
    case Lambda(_, _, body) => AllDropSilently(index, body)
    case _ => true
  }

  predicate AllDropSilently(index: Index, es: seq<Expr>)
    decreases es, 0
  {
    es == [] || (DropsSilently(index, es[0]) && AllDropSilently(index, es[1..]))
  }

  // ---- effects are counted right ----

  lemma {:induction false} EffectsCount(e: Expr, env: Env)
    ensures |Run(e, env).step.trace| == Effects(e)
    decreases e, 1
  {
    hide Values, RunAll, WithParams, Fields, EffectsAll, Lookup, LastValue;
    match e
    case Literal(_) =>
    case Accessor(_) =>
    case Call(obj, _, _, _, posArgs, varArgs, kwArgs) =>
      var f := Run(obj, env);
      var a := RunAll(posArgs, f.env);
      var b := RunAll(varArgs, a.env);
      EffectsCount(obj, env);
      EffectsCountAll(posArgs, f.env);
      EffectsCountAll(varArgs, a.env);
      EffectsCountAll(kwArgs, b.env);
    case BinOp(_, lhs, rhs) =>
      EffectsCount(lhs, env);
      EffectsCount(rhs, Run(lhs, env).env);
    case UnaryOp(operand) => EffectsCount(operand, env);
    case Collection(elems) => EffectsCountAll(elems, env);
    case Lambda(_, _, _) =>
    case Def(sig, _, body) =>
      if !sig.isSubr {
        EffectsCountAll(body, env);
      }
    case Record(attrs) => EffectsCountAll(attrs, env);
    case Class(bases, _) => EffectsCountAll(bases, env);
    case TypeAsc(expr) => EffectsCount(expr, env);
    case Code(block) => EffectsCountAll(block, env);
    case Compound(block) => EffectsCountAll(block, env);
    case Dummy =>
  }

  lemma {:induction false} EffectsCountAll(es: seq<Expr>, env: Env)
    ensures |Trace(RunAll(es, env).steps)| == EffectsAll(es)
    decreases es, 0
  {
    if es != [] {
      EffectsCount(es[0], env);
      EffectsCountAll(es[1..], Run(es[0], env).env);
    }
  }

  // ---- unused variables do not matter ----

  lemma {:induction false} AgreeParams(diff: set<nat>, env: Env, env': Env, params: seq<Param>)
    requires Agree(diff, env, env')
    ensures Agree(diff, WithParams(env, params), WithParams(env', params))
    decreases |params|
  {
    if params != [] {
      var id := params[0].id;
      assert Agree(diff, env[id := Argument(id)], env'[id := Argument(id)]);
      AgreeParams(diff, env[id := Argument(id)], env'[id := Argument(id)], params[1..]);
    }
  }

  lemma {:induction false} RunAgrees(index: Index, diff: set<nat>, e: Expr, env: Env, env': Env)
    requires IndexSound(index, e) && AllUnused(index, diff) && Agree(diff, env, env')
    ensures Run(e, env).step == Run(e, env').step && BoundValue(e, env) == BoundValue(e, env')
    ensures Agree(diff, Run(e, env).env, Run(e, env').env)
    decreases e, 1
  {
    hide WithParams, Values, Trace, RunAll, AllSound, Fields;
    match e
    case Literal(_) =>
    case Accessor(_) =>
    case Call(_, _, _, _, _, _, _) => CallAgrees(index, diff, e, env, env');
    case BinOp(_, lhs, rhs) =>
      RunAgrees(index, diff, lhs, env, env');
      RunAgrees(index, diff, rhs, Run(lhs, env).env, Run(lhs, env').env);
    case UnaryOp(operand) => RunAgrees(index, diff, operand, env, env');
    case Collection(elems) => RunAllAgrees(index, diff, elems, env, env');
    case Lambda(_, params, body) =>
      AgreeParams(diff, env, env', params);
      RunAllAgrees(index, diff, body, WithParams(env, params), WithParams(env', params));
    case Def(_, _, _) => DefAgrees(index, diff, e, env, env');
    case Record(attrs) =>
      RunAllAgrees(index, diff, attrs, env, env');
    case Class(bases, methods) =>
      RunAllAgrees(index, diff, bases, env, env');
      RunAllAgrees(index, diff, methods, RunAll(bases, env).env, RunAll(bases, env').env);
    case TypeAsc(expr) => RunAgrees(index, diff, expr, env, env');
    case Code(block) => RunAllAgrees(index, diff, block, env, env');
    case Compound(block) => RunAllAgrees(index, diff, block, env, env');
    case Dummy =>
  }

  lemma {:induction false} CallAgrees(index: Index, diff: set<nat>, e: Expr, env: Env, env': Env)
    requires e.Call? && IndexSound(index, e) && AllUnused(index, diff) && Agree(diff, env, env')
    ensures Run(e, env).step == Run(e, env').step && Agree(diff, Run(e, env).env, Run(e, env').env)
    decreases e, 0
  {
    hide Values, Trace, RunAll, AllSound, AllUnused, Agree;
    var f, f' := Run(e.obj, env), Run(e.obj, env');
    RunAgrees(index, diff, e.obj, env, env');
    var a, a' := RunAll(e.posArgs, f.env), RunAll(e.posArgs, f'.env);
    RunAllAgrees(index, diff, e.posArgs, f.env, f'.env);
    var b, b' := RunAll(e.varArgs, a.env), RunAll(e.varArgs, a'.env);
    RunAllAgrees(index, diff, e.varArgs, a.env, a'.env);
    RunAllAgrees(index, diff, e.kwArgs, b.env, b'.env);
  }

  lemma {:induction false} DefAgrees(index: Index, diff: set<nat>, e: Expr, env: Env, env': Env)
    requires e.Def? && IndexSound(index, e) && AllUnused(index, diff) && Agree(diff, env, env')
    ensures Run(e, env).step == Run(e, env').step && BoundValue(e, env) == BoundValue(e, env')
    ensures Agree(diff, Run(e, env).env, Run(e, env').env)
    decreases e, 0
  {
    hide WithParams, Trace, RunAll, AllSound, AllUnused;
    var id := e.sig.id;
    if e.sig.isSubr {
      var x, x' := env[id := Argument(id)], env'[id := Argument(id)];
      assert Agree(diff, x, x');
      AgreeParams(diff, x, x', e.params);
      RunAllAgrees(index, diff, e.body, WithParams(x, e.params), WithParams(x', e.params));
    } else {
      RunAllAgrees(index, diff, e.body, env, env');
    }
  }

  lemma {:induction false} RunAllAgrees(index: Index, diff: set<nat>, es: seq<Expr>, env: Env, env': Env)
    requires AllSound(index, es) && AllUnused(index, diff) && Agree(diff, env, env')
    ensures RunAll(es, env).steps == RunAll(es, env').steps && Fields(es, env) == Fields(es, env')
    ensures Agree(diff, RunAll(es, env).env, RunAll(es, env').env)
    decreases es, 0
  {
    hide Run, BoundValue, IndexSound;
    if es != [] {
      RunAgrees(index, diff, es[0], env, env');
      RunAllAgrees(index, diff, es[1..], Run(es[0], env).env, Run(es[0], env').env);
    }
  }

  // ---- elimination ----

  /** Silent elimination changes neither values nor events, nor any name but those that are dropped. */
  lemma {:induction false} SilentKeepsMeaning(index: Index, diff: set<nat>, e: Expr, env: Env, env': Env)
    requires IndexSound(index, e) && DropsSilently(index, e) && AllUnused(index, diff) && Agree(diff, env, env')
    ensures Run(Eliminated(index, e), env').step == Run(e, env).step
    ensures Agree(diff + DroppedIds(index, Outer(e)), Run(e, env).env, Run(Eliminated(index, e), env').env)
    decreases e, 1
  {
    hide WithParams, Values, Trace, RunAll, AllSound, Fields, OuterAll, EliminatedAll, AllDropSilently;
    match e
    case Def(sig, _, _) =>
      if Drops(index, e) {
        EffectsCount(e, env);
        assert sig.id in DroppedIds(index, {e});
      } else {
        RunAgrees(index, diff, e, env, env');
      }
    case Call(_, _, _, _, _, _, _) => CallKeepsMeaning(index, diff, e, env, env');
    case Code(block) => SilentKeepsAll(index, diff, block, env, env');
    case Compound(block) => SilentKeepsAll(index, diff, block, env, env');
    case Lambda(_, params, body) =>
      AgreeParams(diff, env, env', params);
      SilentKeepsAll(index, diff, body, WithParams(env, params), WithParams(env', params));
    case _ => RunAgrees(index, diff, e, env, env');
  }

  lemma {:induction false} CallKeepsMeaning(index: Index, diff: set<nat>, e: Expr, env: Env, env': Env)
    requires e.Call? && IndexSound(index, e) && DropsSilently(index, e) && AllUnused(index, diff) && Agree(diff, env, env')
    ensures Run(Eliminated(index, e), env').step == Run(e, env).step
    ensures Agree(diff + DroppedIds(index, Outer(e)), Run(e, env).env, Run(Eliminated(index, e), env').env)
    decreases e, 0
  {
    hide Values, Trace, RunAll, AllSound, DroppedIds, Agree;
    var f, f' := Run(e.obj, env), Run(e.obj, env');
    RunAgrees(index, diff, e.obj, env, env');
    var a, a' := RunAll(e.posArgs, f.env), RunAll(EliminatedAll(index, e.posArgs), f'.env);
    SilentKeepsAll(index, diff, e.posArgs, f.env, f'.env);
    var wider := diff + DroppedIds(index, OuterAll(e.posArgs));
    DroppedAreUnused(index, OuterAll(e.posArgs));
    var b, b' := RunAll(e.varArgs, a.env), RunAll(e.varArgs, a'.env);
    RunAllAgrees(index, wider, e.varArgs, a.env, a'.env);
    RunAllAgrees(index, wider, e.kwArgs, b.env, b'.env);
  }

  lemma {:induction false} SilentKeepsAll(index: Index, diff: set<nat>, es: seq<Expr>, env: Env, env': Env)
    requires AllSound(index, es) && AllDropSilently(index, es) && AllUnused(index, diff) && Agree(diff, env, env')
    ensures RunAll(EliminatedAll(index, es), env').steps == RunAll(es, env).steps
    ensures Agree(diff + DroppedIds(index, OuterAll(es)), RunAll(es, env).env, RunAll(EliminatedAll(index, es), env').env)
    decreases es, 0
  {
    hide Run, Outer, IndexSound, DropsSilently, DroppedIds, Eliminated;
    if es != [] {
      SilentKeepsMeaning(index, diff, es[0], env, env');
      DroppedAreUnused(index, Outer(es[0]));
      DroppedUnion(index, Outer(es[0]), OuterAll(es[1..]));
      SilentKeepsAll(index, diff + DroppedIds(index, Outer(es[0])), es[1..], Run(es[0], env).env, Run(Eliminated(index, es[0]), env').env);
    }
  }

  lemma {:induction false} EffectsShrink(index: Index, e: Expr)
    ensures Effects(Eliminated(index, e)) <= Effects(e)
    decreases e, 1
  {
    match e
    case Call(_, _, _, _, posArgs, _, _) => EffectsShrinkAll(index, posArgs);
    case Code(block) => EffectsShrinkAll(index, block);
    case Compound(block) => EffectsShrinkAll(index, block);
    case _ =>
  }

  lemma {:induction false} EffectsShrinkAll(index: Index, es: seq<Expr>)
    ensures EffectsAll(EliminatedAll(index, es)) <= EffectsAll(es)
    decreases es, 0
  {
    if es != [] {
      EffectsShrink(index, es[0]);
      EffectsShrinkAll(index, es[1..]);
    }
  }

  /** Two lists that agree after equally long beginnings. */
  lemma SplitEqual<T>(a: seq<T>, b: seq<T>, c: seq<T>, d: seq<T>)
    requires |a| == |c| && a + b == c + d
    ensures a == c && b == d
  {
    assert a == (a + b)[..|a|] && c == (c + d)[..|c|];
    assert b == (a + b)[|a|..] && d == (c + d)[|c|..];
  }

  /** If nothing changed, nothing but silent definitions was dropped. */
  lemma {:induction false} SameMeaningIsSilent(index: Index, diff: set<nat>, e: Expr, env: Env, env': Env)
    requires IndexSound(index, e) && AllUnused(index, diff) && Agree(diff, env, env')
    requires Run(Eliminated(index, e), env').step == Run(e, env).step
    ensures DropsSilently(index, e)
    decreases e, 1
  {
    hide WithParams, Values, Trace, RunAll, AllSound, Fields;
    match e
    case Def(_, _, _) => EffectsCount(e, env);
    case Call(_, _, _, _, _, _, _) => SameCallIsSilent(index, diff, e, env, env');
    case Code(block) => SameMeaningAllSilent(index, diff, block, env, env');
    case Compound(block) => SameMeaningAllSilent(index, diff, block, env, env');
    case Lambda(_, params, body) =>
      AgreeParams(diff, env, env', params);
      SameMeaningAllSilent(index, diff, body, WithParams(env, params), WithParams(env', params));
    case _ =>
  }

  lemma {:induction false} SameCallIsSilent(index: Index, diff: set<nat>, e: Expr, env: Env, env': Env)
    requires e.Call? && IndexSound(index, e) && AllUnused(index, diff) && Agree(diff, env, env')
    requires Run(Eliminated(index, e), env').step == Run(e, env).step
    ensures DropsSilently(index, e)
    decreases e, 0
  {
    var pos := EliminatedAll(index, e.posArgs);
    var f, f' := Run(e.obj, env), Run(e.obj, env');
    RunAgrees(index, diff, e.obj, env, env');
    var a, a' := RunAll(e.posArgs, f.env), RunAll(pos, f'.env);
    var b, b' := RunAll(e.varArgs, a.env), RunAll(e.varArgs, a'.env);
    var c, c' := RunAll(e.kwArgs, b.env), RunAll(e.kwArgs, b'.env);
    EffectsCountAll(e.posArgs, f.env);
    EffectsCountAll(pos, f'.env);
    EffectsCountAll(e.varArgs, a.env);
    EffectsCountAll(e.varArgs, a'.env);
    EffectsCountAll(e.kwArgs, b.env);
    EffectsCountAll(e.kwArgs, b'.env);
    CallOut(e, env);
    CallOut(Eliminated(index, e), env');
    hide Run;
    hide RunAll;
    var args := Values(a.steps) + Values(b.steps) + Values(c.steps);
    var args' := Values(a'.steps) + Values(b'.steps) + Values(c'.steps);
    assert args' == args;
    var last := if IsEffect(e) then [Event(f.step.value, args)] else [];
    SplitFront(f.step.trace, Trace(a.steps), Trace(b.steps), Trace(c.steps), last,
               Trace(a'.steps), Trace(b'.steps), Trace(c'.steps), last);
    SplitFront([], Values(a.steps), Values(b.steps), Values(c.steps), [],
               Values(a'.steps), Values(b'.steps), Values(c'.steps), []);
    SameMeaningAllSilent(index, diff, e.posArgs, f.env, f'.env);
  }

  lemma SplitFront<T>(pre: seq<T>, a: seq<T>, b: seq<T>, c: seq<T>, d: seq<T>, a': seq<T>, b': seq<T>, c': seq<T>, d': seq<T>)
    requires |b| == |b'| && |c| == |c'| && |d| == |d'|
    requires pre + (a + b + c + d) == pre + (a' + b' + c' + d')
    ensures a == a'
  {
    SplitEqual(pre, a + b + c + d, pre, a' + b' + c' + d');
    assert a == (a + b + c + d)[..|a|] && a' == (a' + b' + c' + d')[..|a'|];
  }

  /** The events of a call are those of its parts, in order, and then its own. */
  lemma CallOut(e: Expr, env: Env)
    requires e.Call?
    ensures var f := Run(e.obj, env);
            var a := RunAll(e.posArgs, f.env);
            var b := RunAll(e.varArgs, a.env);
            var c := RunAll(e.kwArgs, b.env);
            var args := Values(a.steps) + Values(b.steps) + Values(c.steps);
            && Run(e, env).step.value == Apply(f.step.value, args)
            && Run(e, env).step.trace == f.step.trace +
                 (Trace(a.steps) + Trace(b.steps) + Trace(c.steps) + (if IsEffect(e) then [Event(f.step.value, args)] else []))
  {
    hide RunAll, Values, Trace, IsEffect;
    var f := Run(e.obj, env);
    var a := RunAll(e.posArgs, f.env);
    var b := RunAll(e.varArgs, a.env);
    var c := RunAll(e.kwArgs, b.env);
    var args := Values(a.steps) + Values(b.steps) + Values(c.steps);
    Regroup(f.step.trace, Trace(a.steps), Trace(b.steps), Trace(c.steps),
      if IsEffect(e) then [Event(f.step.value, args)] else []);
  }

  lemma Regroup<T>(a: seq<T>, b: seq<T>, c: seq<T>, d: seq<T>, e: seq<T>)
    ensures a + b + c + d + e == a + (b + c + d + e)
    ensures e == [] ==> a + b + c + d == a + (b + c + d + e)
  {
  }

  lemma {:induction false} SameMeaningAllSilent(index: Index, diff: set<nat>, es: seq<Expr>, env: Env, env': Env)
    requires AllSound(index, es) && AllUnused(index, diff) && Agree(diff, env, env')
    requires Values(RunAll(EliminatedAll(index, es), env').steps) == Values(RunAll(es, env).steps)
    requires Trace(RunAll(EliminatedAll(index, es), env').steps) == Trace(RunAll(es, env).steps)
    ensures AllDropSilently(index, es)
    decreases es, 0
  {
    if es != [] {
      var x, x' := Run(es[0], env), Run(Eliminated(index, es[0]), env');
      var xs, xs' := RunAll(es[1..], x.env), RunAll(EliminatedAll(index, es[1..]), x'.env);
      assert EliminatedAll(index, es)[1..] == EliminatedAll(index, es[1..]);
      RunCons(es, env);
      RunCons(EliminatedAll(index, es), env');
      EffectsCount(es[0], env);
      EffectsCount(Eliminated(index, es[0]), env');
      EffectsCountAll(es[1..], x.env);
      EffectsCountAll(EliminatedAll(index, es[1..]), x'.env);
      EffectsShrink(index, es[0]);
      EffectsShrinkAll(index, es[1..]);
      SplitEqual(x'.step.trace, Trace(xs'.steps), x.step.trace, Trace(xs.steps));
      SplitEqual([x'.step.value], Values(xs'.steps), [x.step.value], Values(xs.steps));
      SameMeaningIsSilent(index, diff, es[0], env, env');
      SilentKeepsMeaning(index, diff, es[0], env, env');
      DroppedAreUnused(index, Outer(es[0]));
      SameMeaningAllSilent(index, diff + DroppedIds(index, Outer(es[0])), es[1..], x.env, x'.env);
    }
  }

  /** The first chunk and the rest. */
  lemma RunCons(es: seq<Expr>, env: Env)
    requires es != []
    ensures var x := Run(es[0], env);
            var xs := RunAll(es[1..], x.env);
            && RunAll(es, env) == Outs([x.step] + xs.steps, xs.env)
            && Values(RunAll(es, env).steps) == [x.step.value] + Values(xs.steps)
            && Trace(RunAll(es, env).steps) == x.step.trace + Trace(xs.steps)
  {
  }

  /**
   Elimination preserves a module, chunk values, events and the final value of every name but those of dropped
   definitions alike, exactly when no definition it drops causes an event.
   */
  lemma MeaningKeptIffSilent(index: Index, module_: seq<Expr>)
    requires AllSound(index, module_)
    ensures var before, after := RunAll(module_, map[]), RunAll(EliminatedAll(index, module_), map[]);
            (before.steps == after.steps && Agree(DroppedIds(index, OuterAll(module_)), before.env, after.env))
            <==> AllDropSilently(index, module_)
  {
    hide RunAll, DroppedIds, OuterAll;
    if AllDropSilently(index, module_) {
      SilentKeepsAll(index, {}, module_, map[], map[]);
      assert {} + DroppedIds(index, OuterAll(module_)) == DroppedIds(index, OuterAll(module_));
    } else if RunAll(module_, map[]).steps == RunAll(EliminatedAll(index, module_), map[]).steps {
      SameMeaningAllSilent(index, {}, module_, map[], map[]);
    }
  }

  /** A name that must not be dropped: a public, discarded or star-imported one, or one that something refers to. */
  predicate Protected(index: Index, d: Expr) {
    d.Def? && (d.sig.isPublic || d.sig.isDiscarded || d.sig.isGlob || !Unused(index, d.sig.id))
  }

  /** So if it drops silently, every public or referenced name of the module has its value in the end. */
  lemma PublicNamesKept(index: Index, module_: seq<Expr>, id: nat)
    requires AllSound(index, module_) && AllDropSilently(index, module_)
    requires forall d :: d in OuterAll(module_) && d.Def? && d.sig.id == id ==> Protected(index, d)
    ensures Lookup(RunAll(module_, map[]).env, id) == Lookup(RunAll(EliminatedAll(index, module_), map[]).env, id)
  {
    hide RunAll, OuterAll, Unused;
    MeaningKeptIffSilent(index, module_);
  }

  lemma OneChunk(index: Index, e: Expr)
    ensures AnyImpure([e]) == IsImpure(e) && AllSound(index, [e]) == IndexSound(index, e) && EffectsAll([e]) == Effects(e)
  {
  }

  /** The purity test looks at the result of a call, not at what is called: an effect can be dropped. */
  lemma DroppedEffect(callee: VarInfo, sig: Signature)
    requires callee.isProcedure && callee.id != sig.id
    requires !sig.isGlob && !sig.isDiscarded && !sig.isPublic && !sig.isProcedural && !sig.isSubr
    ensures var call := Call(Accessor(callee), false, false, false, [], [], []);
            var d := Def(sig, [], [call]);
            var index: Index := map[sig.id := {}];
            && IndexSound(index, d) && Eliminated(index, d) == Dummy
            && |Run(d, map[]).step.trace| == 1 && Run(Dummy, map[]).step.trace == []
  {
    var call := Call(Accessor(callee), false, false, false, [], [], []);
    var d := Def(sig, [], [call]);
    var index: Index := map[sig.id := {}];
    OneChunk(index, call);
    assert Drops(index, d);
    EffectsCount(d, map[]);
  }

  /** A second pass finds nothing more to do. */
  lemma {:induction false} EliminatedTwice(index: Index, e: Expr)
    ensures Eliminated(index, Eliminated(index, e)) == Eliminated(index, e)
    decreases e, 1
  {
    match e
    case Call(_, _, _, _, posArgs, _, _) => EliminatedAllTwice(index, posArgs);
    case Code(block) => EliminatedAllTwice(index, block);
    case Compound(block) => EliminatedAllTwice(index, block);
    case Lambda(_, _, body) => EliminatedAllTwice(index, body);
    case _ =>
  }

  lemma {:induction false} EliminatedAllTwice(index: Index, es: seq<Expr>)
    ensures EliminatedAll(index, EliminatedAll(index, es)) == EliminatedAll(index, es)
    decreases es, 0
  {
    if es != [] {
      EliminatedTwice(index, es[0]);
      EliminatedAllTwice(index, es[1..]);
    }
  }
}
