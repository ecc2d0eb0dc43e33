/**
 Semantic tokens: a traversal of the syntax tree emits a token for every name, literal and operator,
 each placed relative to the token before it.
 */
module SemanticTokens {
  import opened Wrappers

  /** Lines count from 1, columns from 0. */
  type LineNumber = n: int | n >= 1 witness 1

  datatype Location =
    | Range(lnBegin: LineNumber, colBegin: nat, lnEnd: LineNumber, colEnd: nat)
    | LineRange(lnBegin: LineNumber, lnEnd: LineNumber)
    | Line(lnBegin: LineNumber)
    | Unknown

  datatype TokenType = Class | Interface | Function | Variable | Parameter | Property | Type | String | Number | Operator

  datatype Token = Token(deltaLine: nat, deltaStart: nat, length: int, typ: TokenType)

  datatype Pos = Pos(line: LineNumber, col: nat)

  /** A location with the type of its token. */
  datatype Mark = Mark(loc: Location, typ: TokenType)

  type Namespaces = seq<map<string, TokenType>>

  function LineOf(loc: Location, default_: LineNumber): LineNumber {
    if loc.Unknown? then default_ else loc.lnBegin
  }

  function ColOf(loc: Location, default_: nat): nat {
    if loc.Range? then loc.colBegin else default_
  }

  function Minus(a: nat, b: nat): nat {
    if a < b then 0 else a - b
  }

  // ---- relative positions ----

  function TokenOf(prev: Pos, m: Mark): Token {
    var deltaLine := Minus(LineOf(m.loc, 1), prev.line);
    Token(deltaLine, if deltaLine == 0 then Minus(ColOf(m.loc, 0), prev.col) else ColOf(m.loc, 0),
          if m.loc.Range? then m.loc.colEnd - m.loc.colBegin else 1, m.typ)
  }

  function Moved(prev: Pos, m: Mark): Pos {
    Pos(LineOf(m.loc, prev.line), ColOf(m.loc, prev.col))
  }

  function Encoded(prev: Pos, marks: seq<Mark>): (tokens: seq<Token>)
    ensures |tokens| == |marks|
    decreases |marks|
  {
    if marks == [] then [] else [TokenOf(prev, marks[0])] + Encoded(Moved(prev, marks[0]), marks[1..])
  }

  /** A token has the type of its mark and covers the columns from the beginning to the end of its location. */
  lemma {:induction false} TokenKept(prev: Pos, marks: seq<Mark>, i: nat)
    requires i < |marks|
    ensures Encoded(prev, marks)[i].typ == marks[i].typ
    ensures marks[i].loc.Range? ==> marks[i].loc.colBegin + Encoded(prev, marks)[i].length == marks[i].loc.colEnd
    decreases i
  {
    if i > 0 {
      TokenKept(Moved(prev, marks[0]), marks[1..], i - 1);
    }
  }

  function After(prev: Pos, marks: seq<Mark>): Pos
    decreases |marks|
  {
    if marks == [] then prev else After(Moved(prev, marks[0]), marks[1..])
  }

  /** What a client makes of the tokens (Language Server Protocol 3.17, section Semantic Tokens), with lines from 1. */
  function Decoded(at: Pos, tokens: seq<Token>): (r: seq<Pos>)
    ensures |r| == |tokens|
    decreases |tokens|
  {
    if tokens == [] then []
    else
      var t := tokens[0];
      var p := if t.deltaLine == 0 then Pos(at.line, at.col + t.deltaStart) else Pos(at.line + t.deltaLine, t.deltaStart);
      [p] + Decoded(p, tokens[1..])
  }

  predicate NotAfter(p: Pos, q: Pos) {
    p.line < q.line || (p.line == q.line && p.col <= q.col)
  }

  function At(loc: Location): Pos
    requires loc.Range?
  {
    Pos(loc.lnBegin, loc.colBegin)
  }

  /** Every token with a known location is decoded to it. */
  predicate Recovered(marks: seq<Mark>, decoded: seq<Pos>)
    requires |marks| == |decoded|
  {
    forall i :: 0 <= i < |marks| && marks[i].loc.Range? ==> decoded[i] == At(marks[i].loc)
  }

  lemma RecoveredCons(marks: seq<Mark>, p: Pos, decoded: seq<Pos>)
    requires |marks| == |decoded| + 1
    ensures Recovered(marks, [p] + decoded) <==> (marks[0].loc.Range? ==> p == At(marks[0].loc)) && Recovered(marks[1..], decoded)
  {
  }

  predicate NoColumns(marks: seq<Mark>) {
    forall m :: m in marks ==> !m.loc.Range?
  }

  /**
   When every column of `marks` is found, after a mark at the given line and column. No line may go back while there
   are columns to come. In the line of the mark before, a column may not go back either; but if a location without
   a column has moved on to that line, the client is at its start, and one of the two columns must be 0.
   */
  predicate InOrder(line: LineNumber, col: nat, moved: bool, marks: seq<Mark>)
    decreases |marks|
  {
    marks == [] ||
    (var (loc, rest) := (marks[0].loc, marks[1..]);
     match loc
     case Range(l, c, _, _) =>
       (line < l || (line == l && if moved then col == 0 || c == 0 else col <= c)) && InOrder(l, c, false, rest)
     case LineRange(l, _) => if line <= l then InOrder(l, col, moved || line < l, rest) else NoColumns(rest)
     case Line(l) => if line <= l then InOrder(l, col, moved || line < l, rest) else NoColumns(rest)
     case Unknown => InOrder(line, col, moved, rest))
  }

  /** Where the client is while every column so far was found. */
  function Client(prev: Pos, moved: bool): Pos {
    Pos(prev.line, if moved then 0 else prev.col)
  }

  function DecodedOne(at: Pos, t: Token): Pos {
    if t.deltaLine == 0 then Pos(at.line, at.col + t.deltaStart) else Pos(at.line + t.deltaLine, t.deltaStart)
  }

  lemma RecoveredFirst(prev: Pos, at: Pos, marks: seq<Mark>)
    requires marks != []
    ensures var (p, next) := (DecodedOne(at, TokenOf(prev, marks[0])), Moved(prev, marks[0]));
            Recovered(marks, Decoded(at, Encoded(prev, marks))) <==>
              (marks[0].loc.Range? ==> p == At(marks[0].loc)) && Recovered(marks[1..], Decoded(p, Encoded(next, marks[1..])))
  {
    var (p, next) := (DecodedOne(at, TokenOf(prev, marks[0])), Moved(prev, marks[0]));
    assert Encoded(prev, marks)[1..] == Encoded(next, marks[1..]);
    RecoveredCons(marks, p, Decoded(p, Encoded(next, marks[1..])));
  }

  /** Once the client is below the line that is remembered, no column is found any more. */
  lemma {:induction false} BelowForEver(prev: Pos, at: Pos, marks: seq<Mark>)
    requires at.line > prev.line
    ensures Recovered(marks, Decoded(at, Encoded(prev, marks))) <==> NoColumns(marks)
    decreases |marks|
  {
    if marks != [] {
      hide Decoded, Encoded, Recovered;
      RecoveredFirst(prev, at, marks);
      if !marks[0].loc.Range? {
        BelowForEver(Moved(prev, marks[0]), DecodedOne(at, TokenOf(prev, marks[0])), marks[1..]);
        assert NoColumns(marks) <==> NoColumns(marks[1..]);
      }
    }
  }

  /** Where one token takes the client, and what is remembered. */
  lemma ClientStep(prev: Pos, moved: bool, m: Mark)
    ensures var (p, next) := (DecodedOne(Client(prev, moved), TokenOf(prev, m)), Moved(prev, m));
            && (m.loc.Unknown? ==> next == prev && p == Client(prev, moved))
            && (m.loc.Range? ==>
                  && next == At(m.loc) == Client(next, false)
                  && (p == At(m.loc) <==>
                      || prev.line < next.line
                      || (prev.line == next.line && if moved then prev.col == 0 || next.col == 0 else prev.col <= next.col)))
            && (m.loc.Line? || m.loc.LineRange? ==>
                  && next == Pos(m.loc.lnBegin, prev.col)
                  && (if prev.line <= next.line then p == Client(next, moved || prev.line < next.line) else p.line > next.line))
  {
  }

  /** Decoding gives back every known position exactly if the marks are in order, whatever locations they have. */
  lemma {:induction false} DecodedIffInOrder(prev: Pos, moved: bool, marks: seq<Mark>)
    ensures Recovered(marks, Decoded(Client(prev, moved), Encoded(prev, marks))) <==> InOrder(prev.line, prev.col, moved, marks)
    decreases |marks|
  {
    if marks != [] {
      hide Decoded, Encoded, Recovered, NoColumns, TokenOf, DecodedOne, Moved, Client;
      var (m, at) := (marks[0], Client(prev, moved));
      var (p, next) := (DecodedOne(at, TokenOf(prev, m)), Moved(prev, m));
      RecoveredFirst(prev, at, marks);
      ClientStep(prev, moved, m);
      if m.loc.Unknown? {
        DecodedIffInOrder(next, moved, marks[1..]);
      } else if m.loc.Range? {
        if p == At(m.loc) {
          DecodedIffInOrder(next, false, marks[1..]);
        }
      } else if prev.line <= m.loc.lnBegin {
        DecodedIffInOrder(next, moved || prev.line < m.loc.lnBegin, marks[1..]);
      } else {
        BelowForEver(next, p, marks[1..]);
      }
    } else {
      assert Recovered(marks, Decoded(Client(prev, moved), Encoded(prev, marks)));
    }
  }

  /** The location of two parts, of which the left one is the main one: it needs a column from each. */
  function LeftMainConcat(l: Location, r: Location): Location {
    if l.Range? && r.Range? then Range(l.lnBegin, l.colBegin, r.lnEnd, r.colEnd)
    else if !l.Unknown? && r.Unknown? then l
    else if !l.Unknown? then LineRange(l.lnBegin, if r.Line? then r.lnBegin else r.lnEnd)
    else if r.Unknown? then Unknown
    else Line(if r.Line? then r.lnBegin else r.lnEnd)
  }

  lemma {:induction false} EncodedConcat(prev: Pos, a: seq<Mark>, b: seq<Mark>)
    ensures Encoded(prev, a + b) == Encoded(prev, a) + Encoded(After(prev, a), b)
    ensures After(prev, a + b) == After(After(prev, a), b)
    decreases |a|
  {
    if a == [] {
      assert a + b == b;
    } else {
      assert (a + b)[1..] == a[1..] + b;
      EncodedConcat(Moved(prev, a[0]), a[1..], b);
    }
  }

  // ---- the syntax tree ----

  /** The stretch of text that a node takes. */
  datatype Span = Span(begin: Pos, end: Pos)

  datatype Params = Params(nonDefaults: seq<Location>, varParam: Option<Location>, defaults: seq<Location>)

  datatype Ident = Ident(name: string, loc: Location)

  /** `typ` of a definition says what its name stands for; `Other` are the expressions without tokens. */
  datatype Expr =
    | Literal(span: Span, loc: Location, typ: TokenType)
    | Def(span: Span, name: string, typ: TokenType, decorators: seq<Expr>, params: Option<Params>, body: seq<Expr>)
    | Lambda(span: Span, lambdaParams: Params, body: seq<Expr>)
    | Methods(span: Span, cls: TypeSpec, defs: seq<Expr>)
    | Variable(span: Span, ident: Ident)
    | Attribute(span: Span, obj: Expr, attr: Location)
    | Call(span: Span, callee: Expr, posArgs: seq<Expr>, varArgs: seq<Expr>, kwArgs: seq<Expr>)
    | BinOp(span: Span, lhs: Expr, op: Location, rhs: Expr)
    | UnaryOp(span: Span, op: Location, operand: Expr)
    | Other(span: Span)

  datatype TypeSpec =
    | Mono(span: Span, ident: Ident)
    | Poly(span: Span, acc: Location)
    | InNamespace(span: Span, namespace: Expr, t: Ident)
    | OtherType(span: Span)

  /** What a traversal emits, and the names it leaves behind. */
  datatype Marks = Marks(marks: seq<Mark>, names: Namespaces)

  /** The innermost namespace that has the name decides. */
  function TypeOf(names: Namespaces, key: string): TokenType {
    if names == [] then TokenType.Variable
    else
      var innermost := names[|names| - 1];
      if key in innermost then innermost[key] else TypeOf(names[..|names| - 1], key)
  }

  function WithName(names: Namespaces, key: string, typ: TokenType): (r: Namespaces)
    ensures |r| == |names|
  {
    if names == [] then names else names[|names| - 1 := names[|names| - 1][key := typ]]
  }

  function AllMarked(locs: seq<Location>, typ: TokenType): (r: seq<Mark>)
    ensures |r| == |locs|
  {
    seq(|locs|, i requires 0 <= i < |locs| => Mark(locs[i], typ))
  }

  function ParamLocs(params: Option<Params>): seq<Location> {
    if params.None? then []
    else
      var p := params.value;
      p.nonDefaults + (if p.varParam.Some? then [p.varParam.value] else []) + p.defaults
  }

  function Then(a: Marks, b: Marks): Marks {
    Marks(a.marks + b.marks, b.names)
  }

  function MarksOf(e: Expr, names: Namespaces): (r: Marks)
    ensures |r.names| == |names|
    decreases e, 1
  {
    match e
    case Literal(_, loc, typ) => Marks([Mark(loc, typ)], names)
    case Def(_, name, typ, decorators, params, body) =>
      var a := MarksOfAll(decorators, WithName(names, name, typ));
      var c := MarksOfAll(body, a.names + [map[]]);
      Marks(a.marks + (AllMarked(ParamLocs(params), Parameter) + c.marks), c.names[..|names|])
    case Lambda(_, params, body) =>
      var c := MarksOfAll(body, names + [map[]]);
      Marks(AllMarked(ParamLocs(Some(params)), Parameter) + c.marks, c.names[..|names|])
    case Methods(_, cls, defs) =>
      var a := MarksOfType(cls, names);
      Then(a, MarksOfAll(defs, a.names))
    case Variable(_, ident) => Marks([Mark(ident.loc, TypeOf(names, ident.name))], names)
    case Attribute(_, obj, attr) => Then(MarksOf(obj, names), Marks([Mark(attr, Property)], MarksOf(obj, names).names))
    case Call(_, callee, posArgs, varArgs, kwArgs) =>
      var f := MarksOf(callee, names);
      var a := MarksOfAll(posArgs, f.names);
      var b := MarksOfAll(varArgs, a.names);
      var c := MarksOfAll(kwArgs, b.names);
      Marks(f.marks + (a.marks + b.marks + c.marks), c.names)
    case BinOp(_, lhs, op, rhs) =>
      var a := MarksOf(lhs, names);
      var b := MarksOf(rhs, a.names);
      Marks(a.marks + [Mark(op, Operator)] + b.marks, b.names)
    case UnaryOp(_, op, operand) => Then(Marks([Mark(op, Operator)], names), MarksOf(operand, names))
    case Other(_) => Marks([], names)
  }

  function MarksOfAll(es: seq<Expr>, names: Namespaces): (r: Marks)
    ensures |r.names| == |names|
    decreases es, 0
  {
    if es == [] then Marks([], names)
    else
      var a := MarksOf(es[0], names);
      Then(a, MarksOfAll(es[1..], a.names))
  }

  function MarksOfType(t: TypeSpec, names: Namespaces): (r: Marks)
    ensures |r.names| == |names|
    decreases t, 0
  {
    match t
    case Mono(_, ident) => Marks([Mark(ident.loc, TypeOf(names, ident.name))], names)
    case Poly(_, acc) => Marks([Mark(acc, Type)], names)
    case InNamespace(_, namespace, ident) =>
      var a := MarksOf(namespace, names);
      Then(a, Marks([Mark(ident.loc, TypeOf(a.names, ident.name))], a.names))
    case OtherType(_) => Marks([], names)
  }

  lemma {:induction false} MarksOfAllAppend(es: seq<Expr>, i: nat, names: Namespaces)
    requires i < |es|
    ensures MarksOfAll(es[..i + 1], names) == Then(MarksOfAll(es[..i], names), MarksOf(es[i], MarksOfAll(es[..i], names).names))
    decreases i
  {
    if i == 0 {
      assert es[..1][1..] == [];
    } else {
      assert es[..i][1..] == es[1..][..i - 1] && es[..i + 1][1..] == es[1..][..i];
      MarksOfAllAppend(es[1..], i - 1, MarksOf(es[0], names).names);
    }
  }

  // ---- the traversal ----

  class ASTSemanticState {
    var prevLine: LineNumber
    var prevCol: nat
    var namespaces: Namespaces

    ghost function Prev(): Pos
      reads this
    {
      Pos(prevLine, prevCol)
    }

    /** The tokens of a traversal are its marks, encoded from the token before, and its names are left behind. */
    twostate predicate Emits(tokens: seq<Token>, m: Marks)
      reads this
    {
      tokens == Encoded(old(Prev()), m.marks) && Prev() == After(old(Prev()), m.marks) && namespaces == m.names
    }

    constructor ()
      ensures Prev() == Pos(1, 0) && namespaces == [map[]]
    {
      prevLine, prevCol, namespaces := 1, 0, [map[]];
    }

    method GetVariableType(key: string) returns (typ: TokenType)
      ensures typ == TypeOf(namespaces, key)
    {
      assert namespaces[..|namespaces|] == namespaces;
      for i := |namespaces| downto 0
        invariant TypeOf(namespaces, key) == TypeOf(namespaces[..i], key)
      {
        assert namespaces[..i + 1][..i] == namespaces[..i];
        if key in namespaces[i] {
          return namespaces[i][key];
        }
      }
      return TokenType.Variable;
    }

    method PushCurrentNamespace(key: string, typ: TokenType)
      modifies this
      ensures namespaces == WithName(old(namespaces), key, typ) && Prev() == old(Prev())
    {
      if namespaces != [] {
        namespaces := namespaces[|namespaces| - 1 := namespaces[|namespaces| - 1][key := typ]];
      }
    }

    method GenToken(loc: Location, typ: TokenType) returns (token: Token)
      modifies this
      ensures token == TokenOf(old(Prev()), Mark(loc, typ)) && Prev() == Moved(old(Prev()), Mark(loc, typ))
      ensures Emits([token], Marks([Mark(loc, typ)], old(namespaces)))
    {
      var deltaLine := Minus(LineOf(loc, 1), prevLine);
      var deltaStart;
      if deltaLine == 0 {
        deltaStart := Minus(ColOf(loc, 0), prevCol);
      } else {
        deltaStart := ColOf(loc, 0);
      }
      token := Token(deltaLine, deltaStart, if loc.Range? then loc.colEnd - loc.colBegin else 1, typ);
      prevLine := LineOf(loc, prevLine);
      prevCol := ColOf(loc, prevCol);
      OneMark(old(Prev()), Mark(loc, typ));
    }

    method GenFromTypespec(t: TypeSpec) returns (tokens: seq<Token>)
      modifies this
      ensures Emits(tokens, MarksOfType(t, old(namespaces)))
      decreases t, 1
    {
      match t
      case Mono(_, ident) =>
        tokens := GenFromIdent(ident);
      case Poly(_, acc) =>
        var token := GenToken(acc, Type);
        tokens := [token];
      case InNamespace(_, namespace, ident) =>
        var before := GenFromExpr(namespace);
        ghost var a := MarksOf(namespace, old(namespaces));
        var ts := GenFromIdent(ident);
        tokens := before + ts;
        EncodedConcat(old(Prev()), a.marks, [Mark(ident.loc, TypeOf(a.names, ident.name))]);
      case OtherType(_) =>
        tokens := [];
    }

    method GenFromIdent(ident: Ident) returns (tokens: seq<Token>)
      modifies this
      ensures Emits(tokens, Marks([Mark(ident.loc, TypeOf(old(namespaces), ident.name))], old(namespaces)))
    {
      var typ := GetVariableType(ident.name);
      var token := GenToken(ident.loc, typ);
      tokens := [token];
    }

    method GenFromAll(es: seq<Expr>) returns (tokens: seq<Token>)
      modifies this
      ensures Emits(tokens, MarksOfAll(es, old(namespaces)))
      decreases es, 0
    {
      tokens := [];
      for i := 0 to |es|
        invariant Emits(tokens, MarksOfAll(es[..i], old(namespaces)))
      {
        ghost var m := MarksOfAll(es[..i], old(namespaces));
        var ts := GenFromExpr(es[i]);
        tokens := tokens + ts;
        MarksOfAllAppend(es, i, old(namespaces));
        EncodedConcat(old(Prev()), m.marks, MarksOf(es[i], m.names).marks);
      }
      assert es[..|es|] == es;
    }

    /** One token of the given type for every location. */
    method GenTokens(locs: seq<Location>, typ: TokenType) returns (tokens: seq<Token>)
      modifies this
      ensures Emits(tokens, Marks(AllMarked(locs, typ), old(namespaces)))
    {
      tokens := [];
      for i := 0 to |locs|
        invariant Emits(tokens, Marks(AllMarked(locs[..i], typ), old(namespaces)))
      {
        var token := GenToken(locs[i], typ);
        tokens := tokens + [token];
        assert AllMarked(locs[..i + 1], typ) == AllMarked(locs[..i], typ) + [Mark(locs[i], typ)];
        EncodedConcat(old(Prev()), AllMarked(locs[..i], typ), [Mark(locs[i], typ)]);
      }
      assert locs[..|locs|] == locs;
    }

    method GenFromParams(params: Option<Params>) returns (tokens: seq<Token>)
      modifies this
      ensures Emits(tokens, Marks(AllMarked(ParamLocs(params), Parameter), old(namespaces)))
    {
      tokens := [];
      if params.Some? {
        var p := params.value;
        var var_ := if p.varParam.Some? then [p.varParam.value] else [];
        var nd := GenTokens(p.nonDefaults, Parameter);
        var v := GenTokens(var_, Parameter);
        var d := GenTokens(p.defaults, Parameter);
        tokens := nd + v + d;
        var a, b, c := AllMarked(p.nonDefaults, Parameter), AllMarked(var_, Parameter), AllMarked(p.defaults, Parameter);
        assert AllMarked(ParamLocs(params), Parameter) == a + b + c;
        EncodedConcat(old(Prev()), a, b);
        EncodedConcat(old(Prev()), a + b, c);
      }
    }

    /** A block has a namespace of its own, which is gone afterwards. */
    method GenFromBlock(params: Option<Params>, block: seq<Expr>) returns (tokens: seq<Token>)
      modifies this
      ensures var c := MarksOfAll(block, old(namespaces) + [map[]]);
              Emits(tokens, Marks(AllMarked(ParamLocs(params), Parameter) + c.marks, c.names[..|old(namespaces)|]))
      decreases block, 1
    {
      namespaces := namespaces + [map[]];
      var ps := GenFromParams(params);
      var ts := GenFromAll(block);
      tokens := ps + ts;
      EncodedConcat(old(Prev()), AllMarked(ParamLocs(params), Parameter), MarksOfAll(block, old(namespaces) + [map[]]).marks);
      namespaces := namespaces[..|namespaces| - 1];
    }

    method GenFromDef(e: Expr) returns (tokens: seq<Token>)
      requires e.Def?
      modifies this
      ensures Emits(tokens, MarksOf(e, old(namespaces)))
      decreases e, 1
    {
      PushCurrentNamespace(e.name, e.typ);
      var ds := GenFromAll(e.decorators);
      ghost var a := MarksOfAll(e.decorators, WithName(old(namespaces), e.name, e.typ));
      var ts := GenFromBlock(e.params, e.body);
      tokens := ds + ts;
      EncodedConcat(old(Prev()), a.marks, AllMarked(ParamLocs(e.params), Parameter) + MarksOfAll(e.body, a.names + [map[]]).marks);
    }

    method GenFromCall(e: Expr) returns (tokens: seq<Token>)
      requires e.Call?
      modifies this
      ensures Emits(tokens, MarksOf(e, old(namespaces)))
      decreases e, 1
    {
      ghost var f := MarksOf(e.callee, namespaces);
      ghost var a := MarksOfAll(e.posArgs, f.names);
      ghost var b := MarksOfAll(e.varArgs, a.names);
      ghost var c := MarksOfAll(e.kwArgs, b.names);
      tokens := GenFromExpr(e.callee);
      var args := GenFromAll(e.posArgs);
      var more := GenFromAll(e.varArgs);
      args := args + more;
      EncodedConcat(After(old(Prev()), f.marks), a.marks, b.marks);
      more := GenFromAll(e.kwArgs);
      args := args + more;
      EncodedConcat(After(old(Prev()), f.marks), a.marks + b.marks, c.marks);
      tokens := tokens + args;
      EncodedConcat(old(Prev()), f.marks, a.marks + b.marks + c.marks);
    }

    method GenFromBin(e: Expr) returns (tokens: seq<Token>)
      requires e.BinOp?
      modifies this
      ensures Emits(tokens, MarksOf(e, old(namespaces)))
      decreases e, 1
    {
      ghost var a := MarksOf(e.lhs, namespaces);
      tokens := GenFromExpr(e.lhs);
      var op := GenToken(e.op, Operator);
      tokens := tokens + [op];
      EncodedConcat(old(Prev()), a.marks, [Mark(e.op, Operator)]);
      var ts := GenFromExpr(e.rhs);
      tokens := tokens + ts;
      EncodedConcat(old(Prev()), a.marks + [Mark(e.op, Operator)], MarksOf(e.rhs, a.names).marks);
    }

    method GenFromExpr(e: Expr) returns (tokens: seq<Token>)
      modifies this
      ensures Emits(tokens, MarksOf(e, old(namespaces)))
      decreases e, 2
    {
      match e
      case Literal(_, loc, typ) =>
        var token := GenToken(loc, typ);
        tokens := [token];
      case Def(_, _, _, _, _, _) =>
        tokens := GenFromDef(e);
      case Lambda(_, params, body) =>
        tokens := GenFromBlock(Some(params), body);
      case Methods(_, cls, defs) =>
        tokens := GenFromTypespec(cls);
        ghost var a := MarksOfType(cls, old(namespaces));
        var ts := GenFromAll(defs);
        tokens := tokens + ts;
        EncodedConcat(old(Prev()), a.marks, MarksOfAll(defs, a.names).marks);
      case Variable(_, ident) =>
        tokens := GenFromIdent(ident);
      case Attribute(_, obj, attr) =>
        tokens := GenFromExpr(obj);
        var token := GenToken(attr, Property);
        tokens := tokens + [token];
        EncodedConcat(old(Prev()), MarksOf(obj, old(namespaces)).marks, [Mark(attr, Property)]);
      case Call(_, _, _, _, _) =>
        tokens := GenFromCall(e);
      case BinOp(_, _, _, _) =>
        tokens := GenFromBin(e);
      case UnaryOp(_, op, operand) =>
        var token := GenToken(op, Operator);
        var ts := GenFromExpr(operand);
        tokens := [token] + ts;
        EncodedConcat(old(Prev()), [Mark(op, Operator)], MarksOf(operand, old(namespaces)).marks);
      case Other(_) =>
        tokens := [];
    }

    /** All tokens of a module, from a fresh state. */
    method EnumerateTokens(chunks: seq<Expr>) returns (tokens: seq<Token>)
      requires Prev() == Pos(1, 0)
      modifies this
      ensures tokens == Encoded(Pos(1, 0), MarksOfAll(chunks, old(namespaces)).marks)
      ensures old(namespaces) == [map[]] ==> tokens == Encoded(Pos(1, 0), Seen([], EventsAll(chunks)))
      ensures |namespaces| == |old(namespaces)|
    {
      hide MarksOfAll, Seen, EventsAll, Encoded;
      tokens := GenFromAll(chunks);
      NamesByLastBinding(chunks);
    }
  }

  lemma OneMark(prev: Pos, m: Mark)
    ensures Encoded(prev, [m]) == [TokenOf(prev, m)] && After(prev, [m]) == Moved(prev, m)
  {
  }

  // ---- traversals leave outer namespaces alone ----

  /** The stack has its depth back, and only the innermost namespace may have new names. */
  lemma {:induction false} OuterNamesKept(e: Expr, names: Namespaces)
    requires names != []
    ensures MarksOf(e, names).names[..|names| - 1] == names[..|names| - 1]
    decreases e, 1
  {
    hide AllMarked, ParamLocs, TypeOf, MarksOfAll;
    match e
    case Def(_, name, typ, decorators, params, body) =>
      var named := WithName(names, name, typ);
      OuterNamesKeptAll(decorators, named);
      var a := MarksOfAll(decorators, named);
      OuterNamesKeptAll(body, a.names + [map[]]);
      assert MarksOf(e, names).names == (a.names + [map[]])[..|names|] == a.names;
    case Lambda(_, params, body) =>
      OuterNamesKeptAll(body, names + [map[]]);
      assert MarksOf(e, names).names == (names + [map[]])[..|names|] == names;
    case Methods(_, cls, defs) =>
      var a := MarksOfType(cls, names);
      if cls.InNamespace? {
        OuterNamesKept(cls.namespace, names);
      }
      OuterNamesKeptAll(defs, a.names);
    case Attribute(_, obj, _) => OuterNamesKept(obj, names);
    case Call(_, callee, posArgs, varArgs, kwArgs) =>
      var f := MarksOf(callee, names);
      var a := MarksOfAll(posArgs, f.names);
      var b := MarksOfAll(varArgs, a.names);
      OuterNamesKept(callee, names);
      OuterNamesKeptAll(posArgs, f.names);
      OuterNamesKeptAll(varArgs, a.names);
      OuterNamesKeptAll(kwArgs, b.names);
    case BinOp(_, lhs, _, rhs) =>
      OuterNamesKept(lhs, names);
      OuterNamesKept(rhs, MarksOf(lhs, names).names);
    case UnaryOp(_, _, operand) => OuterNamesKept(operand, names);
    case _ =>
  }

  lemma {:induction false} OuterNamesKeptAll(es: seq<Expr>, names: Namespaces)
    requires names != []
    ensures MarksOfAll(es, names).names[..|names| - 1] == names[..|names| - 1]
    decreases es, 0
  {
    if es != [] {
      OuterNamesKept(es[0], names);
      OuterNamesKeptAll(es[1..], MarksOf(es[0], names).names);
    }
  }

  // ---- trees laid out from left to right ----

  /** Parts that follow one another within a stretch of text. */
  predicate Consecutive(from: Pos, parts: seq<Span>, to: Pos)
    decreases |parts|
  {
    if parts == [] then NotAfter(from, to)
    else NotAfter(from, parts[0].begin) && NotAfter(parts[0].begin, parts[0].end) && Consecutive(parts[0].end, parts[1..], to)
  }

  function TokenSpan(loc: Location): Span
    requires loc.Range?
  {
    Span(At(loc), At(loc))
  }

  function Spans(es: seq<Expr>): (r: seq<Span>)
    ensures |r| == |es|
  {
    seq(|es|, i requires 0 <= i < |es| => es[i].span)
  }

  function TokenSpans(locs: seq<Location>): seq<Span>
    requires forall l :: l in locs ==> l.Range?
  {
    seq(|locs|, i requires 0 <= i < |locs| => TokenSpan(locs[i]))
  }

  /** All locations are known, and the parts of every node are consecutive in it. */
  predicate LaidOut(e: Expr)
    decreases e, 1
  {
    var (begin, end) := (e.span.begin, e.span.end);
    match e
    case Literal(_, loc, _) => loc.Range? && Consecutive(begin, [TokenSpan(loc)], end)
    case Def(_, _, _, decorators, params, body) =>
      && AllLaidOut(decorators) && AllLaidOut(body) && (forall l :: l in ParamLocs(params) ==> l.Range?)
      && Consecutive(begin, Spans(decorators) + (TokenSpans(ParamLocs(params)) + Spans(body)), end)
    case Lambda(_, params, body) =>
      && AllLaidOut(body) && (forall l :: l in ParamLocs(Some(params)) ==> l.Range?)
      && Consecutive(begin, TokenSpans(ParamLocs(Some(params))) + Spans(body), end)
    case Methods(_, cls, defs) =>
      TypeLaidOut(cls) && AllLaidOut(defs) && Consecutive(begin, [cls.span] + Spans(defs), end)
    case Variable(_, ident) => ident.loc.Range? && Consecutive(begin, [TokenSpan(ident.loc)], end)
    case Attribute(_, obj, attr) => attr.Range? && LaidOut(obj) && Consecutive(begin, [obj.span] + [TokenSpan(attr)], end)
    case Call(_, callee, posArgs, varArgs, kwArgs) =>
      && LaidOut(callee) && AllLaidOut(posArgs) && AllLaidOut(varArgs) && AllLaidOut(kwArgs)
      && Consecutive(begin, [callee.span] + (Spans(posArgs) + Spans(varArgs) + Spans(kwArgs)), end)
    case BinOp(_, lhs, op, rhs) =>
      LaidOut(lhs) && op.Range? && LaidOut(rhs) && Consecutive(begin, [lhs.span] + [TokenSpan(op)] + [rhs.span], end)
    case UnaryOp(_, op, operand) => op.Range? && LaidOut(operand) && Consecutive(begin, [TokenSpan(op)] + [operand.span], end)
    case Other(_) => NotAfter(begin, end)
  }

  predicate AllLaidOut(es: seq<Expr>)
    decreases es, 0
  {
    es == [] || (LaidOut(es[0]) && AllLaidOut(es[1..]))
  }

  predicate TypeLaidOut(t: TypeSpec)
    decreases t, 0
  {
    match t
    case Mono(span, ident) => ident.loc.Range? && Consecutive(span.begin, [TokenSpan(ident.loc)], span.end)
    case Poly(span, acc) => acc.Range? && Consecutive(span.begin, [TokenSpan(acc)], span.end)
    case InNamespace(span, namespace, ident) =>
      LaidOut(namespace) && ident.loc.Range? && Consecutive(span.begin, [namespace.span] + [TokenSpan(ident.loc)], span.end)
    case OtherType(span) => NotAfter(span.begin, span.end)
  }

  /** Known locations in order, from one position to another. */
  predicate Within(from: Pos, marks: seq<Mark>, to: Pos)
    decreases |marks|
  {
    if marks == [] then NotAfter(from, to)
    else marks[0].loc.Range? && NotAfter(from, At(marks[0].loc)) && Within(At(marks[0].loc), marks[1..], to)
  }

  lemma {:induction false} WithinConcat(from: Pos, a: seq<Mark>, mid: Pos, mid': Pos, b: seq<Mark>, to: Pos)
    requires Within(from, a, mid) && NotAfter(mid, mid') && Within(mid', b, to)
    ensures Within(from, a + b, to)
    decreases |a|, |b|
  {
    if a == [] {
      assert a + b == b;
      WithinBounds(mid', b, to);
    } else {
      assert (a + b)[1..] == a[1..] + b;
      WithinConcat(At(a[0].loc), a[1..], mid, mid', b, to);
    }
  }

  lemma {:induction false} WithinBounds(from: Pos, marks: seq<Mark>, to: Pos)
    requires Within(from, marks, to)
    ensures NotAfter(from, to)
    decreases |marks|
  {
    if marks != [] {
      WithinBounds(At(marks[0].loc), marks[1..], to);
    }
  }

  /** Consecutive parts can be cut anywhere. */
  lemma {:induction false} CutParts(from: Pos, a: seq<Span>, b: seq<Span>, to: Pos) returns (cut: Pos)
    requires Consecutive(from, a + b, to)
    ensures Consecutive(from, a, cut) && Consecutive(cut, b, to)
    decreases |a|
  {
    if a == [] {
      assert a + b == b;
      return from;
    } else {
      assert (a + b)[1..] == a[1..] + b;
      cut := CutParts(a[0].end, a[1..], b, to);
    }
  }

  /** One part, and what it emits. */
  lemma OnePart(from: Pos, part: Span, to: Pos, marks: seq<Mark>)
    requires Consecutive(from, [part], to) && Within(part.begin, marks, part.end)
    ensures Within(from, marks, to)
  {
    assert [part][1..] == [];
    WithinConcat(from, [], from, part.begin, marks, part.end);
    WithinConcat(from, [] + marks, part.end, to, [], to);
    assert [] + marks + [] == marks;
  }

  lemma OneToken(from: Pos, loc: Location, to: Pos, typ: TokenType)
    requires loc.Range? && Consecutive(from, [TokenSpan(loc)], to)
    ensures Within(from, [Mark(loc, typ)], to)
  {
  }

  lemma {:induction false} TokensWithin(from: Pos, locs: seq<Location>, to: Pos, typ: TokenType)
    requires (forall l :: l in locs ==> l.Range?) && Consecutive(from, TokenSpans(locs), to)
    ensures Within(from, AllMarked(locs, typ), to)
    decreases |locs|
  {
    if locs != [] {
      assert TokenSpans(locs)[1..] == TokenSpans(locs[1..]) && AllMarked(locs, typ)[1..] == AllMarked(locs[1..], typ);
      TokensWithin(At(locs[0]), locs[1..], to, typ);
    }
  }

  lemma {:induction false} AllWithin(from: Pos, es: seq<Expr>, to: Pos, names: Namespaces)
    requires AllLaidOut(es) && Consecutive(from, Spans(es), to)
    ensures Within(from, MarksOfAll(es, names).marks, to)
    decreases es, 0
  {
    hide MarksOf, LaidOut;
    if es != [] {
      assert Spans(es)[1..] == Spans(es[1..]);
      MarksWithin(es[0], names);
      AllWithin(es[0].span.end, es[1..], to, MarksOf(es[0], names).names);
      WithinConcat(from, [], from, es[0].span.begin, MarksOf(es[0], names).marks, es[0].span.end);
      assert [] + MarksOf(es[0], names).marks == MarksOf(es[0], names).marks;
      WithinConcat(from, MarksOf(es[0], names).marks, es[0].span.end, es[0].span.end,
        MarksOfAll(es[1..], MarksOf(es[0], names).names).marks, to);
    }
  }

  /** Two groups of consecutive parts emit one after the other. */
  lemma TwoParts(from: Pos, mid: Pos, to: Pos, a: seq<Mark>, b: seq<Mark>)
    requires Within(from, a, mid) && Within(mid, b, to)
    ensures Within(from, a + b, to)
  {
    WithinConcat(from, a, mid, mid, b, to);
  }

  /** A tree that is laid out from left to right emits its tokens in order, within its own stretch. */
  lemma {:induction false} MarksWithin(e: Expr, names: Namespaces)
    requires LaidOut(e)
    ensures Within(e.span.begin, MarksOf(e, names).marks, e.span.end)
    decreases e, 1
  {
    hide Consecutive, Within, Spans, TokenSpans, ParamLocs, AllMarked;
    var (begin, end) := (e.span.begin, e.span.end);
    match e
    case Literal(_, loc, typ) => OneToken(begin, loc, end, typ);
    case Def(_, name, typ, decorators, params, body) =>
      var named := WithName(names, name, typ);
      var inner := MarksOfAll(decorators, named).names + [map[]];
      var cut := CutParts(begin, Spans(decorators), TokenSpans(ParamLocs(params)) + Spans(body), end);
      AllWithin(begin, decorators, cut, named);
      BlockWithin(cut, params, body, end, inner);
      TwoParts(begin, cut, end, MarksOfAll(decorators, named).marks,
        AllMarked(ParamLocs(params), Parameter) + MarksOfAll(body, inner).marks);
    case Lambda(_, params, body) => BlockWithin(begin, Some(params), body, end, names + [map[]]);
    case Methods(_, cls, defs) =>
      var cut := CutParts(begin, [cls.span], Spans(defs), end);
      var a := MarksOfType(cls, names);
      TypeWithin(cls, names);
      OnePart(begin, cls.span, cut, a.marks);
      AllWithin(cut, defs, end, a.names);
      TwoParts(begin, cut, end, a.marks, MarksOfAll(defs, a.names).marks);
    case Variable(_, ident) => OneToken(begin, ident.loc, end, TypeOf(names, ident.name));
    case Attribute(_, obj, attr) =>
      var cut := CutParts(begin, [obj.span], [TokenSpan(attr)], end);
      MarksWithin(obj, names);
      OnePart(begin, obj.span, cut, MarksOf(obj, names).marks);
      OneToken(cut, attr, end, Property);
      TwoParts(begin, cut, end, MarksOf(obj, names).marks, [Mark(attr, Property)]);
    case Call(_, callee, posArgs, varArgs, kwArgs) =>
      var f := MarksOf(callee, names);
      var cut := CutParts(begin, [callee.span], Spans(posArgs) + Spans(varArgs) + Spans(kwArgs), end);
      MarksWithin(callee, names);
      OnePart(begin, callee.span, cut, f.marks);
      ArgsWithin(cut, e, end, f.names);
      var a := MarksOfAll(posArgs, f.names);
      var b := MarksOfAll(varArgs, a.names);
      TwoParts(begin, cut, end, f.marks, a.marks + b.marks + MarksOfAll(kwArgs, b.names).marks);
    case BinOp(_, lhs, op, rhs) =>
      var a := MarksOf(lhs, names);
      var cut' := CutParts(begin, [lhs.span] + [TokenSpan(op)], [rhs.span], end);
      var cut := CutParts(begin, [lhs.span], [TokenSpan(op)], cut');
      MarksWithin(lhs, names);
      OnePart(begin, lhs.span, cut, a.marks);
      OneToken(cut, op, cut', Operator);
      MarksWithin(rhs, a.names);
      OnePart(cut', rhs.span, end, MarksOf(rhs, a.names).marks);
      TwoParts(begin, cut, cut', a.marks, [Mark(op, Operator)]);
      TwoParts(begin, cut', end, a.marks + [Mark(op, Operator)], MarksOf(rhs, a.names).marks);
    case UnaryOp(_, op, operand) =>
      var cut := CutParts(begin, [TokenSpan(op)], [operand.span], end);
      OneToken(begin, op, cut, Operator);
      MarksWithin(operand, names);
      OnePart(cut, operand.span, end, MarksOf(operand, names).marks);
      TwoParts(begin, cut, end, [Mark(op, Operator)], MarksOf(operand, names).marks);
    case Other(_) => NothingWithin(begin, end);
  }

  lemma NothingWithin(from: Pos, to: Pos)
    requires NotAfter(from, to)
    ensures Within(from, [], to)
  {
  }

  lemma {:induction false} BlockWithin(from: Pos, params: Option<Params>, body: seq<Expr>, to: Pos, names: Namespaces)
    requires AllLaidOut(body) && forall l :: l in ParamLocs(params) ==> l.Range?
    requires Consecutive(from, TokenSpans(ParamLocs(params)) + Spans(body), to)
    ensures Within(from, AllMarked(ParamLocs(params), Parameter) + MarksOfAll(body, names).marks, to)
    decreases body, 1
  {
    var cut := CutParts(from, TokenSpans(ParamLocs(params)), Spans(body), to);
    TokensWithin(from, ParamLocs(params), cut, Parameter);
    AllWithin(cut, body, to, names);
    TwoParts(from, cut, to, AllMarked(ParamLocs(params), Parameter), MarksOfAll(body, names).marks);
  }

  lemma {:induction false} ArgsWithin(from: Pos, e: Expr, to: Pos, names: Namespaces)
    requires e.Call? && AllLaidOut(e.posArgs) && AllLaidOut(e.varArgs) && AllLaidOut(e.kwArgs)
    requires Consecutive(from, Spans(e.posArgs) + Spans(e.varArgs) + Spans(e.kwArgs), to)
    ensures var a := MarksOfAll(e.posArgs, names); var b := MarksOfAll(e.varArgs, a.names);
            Within(from, a.marks + b.marks + MarksOfAll(e.kwArgs, b.names).marks, to)
    decreases e, 0
  {
    hide Consecutive, Within, Spans;
    var a := MarksOfAll(e.posArgs, names);
    var b := MarksOfAll(e.varArgs, a.names);
    var cut' := CutParts(from, Spans(e.posArgs) + Spans(e.varArgs), Spans(e.kwArgs), to);
    var cut := CutParts(from, Spans(e.posArgs), Spans(e.varArgs), cut');
    AllWithin(from, e.posArgs, cut, names);
    AllWithin(cut, e.varArgs, cut', a.names);
    AllWithin(cut', e.kwArgs, to, b.names);
    TwoParts(from, cut, cut', a.marks, b.marks);
    TwoParts(from, cut', to, a.marks + b.marks, MarksOfAll(e.kwArgs, b.names).marks);
  }

  lemma {:induction false} TypeWithin(t: TypeSpec, names: Namespaces)
    requires TypeLaidOut(t)
    ensures Within(t.span.begin, MarksOfType(t, names).marks, t.span.end)
    decreases t, 0
  {
    hide Consecutive, Within;
    match t
    case Mono(span, ident) => OneToken(span.begin, ident.loc, span.end, TypeOf(names, ident.name));
    case Poly(span, acc) => OneToken(span.begin, acc, span.end, Type);
    case InNamespace(span, namespace, ident) =>
      var a := MarksOf(namespace, names);
      var cut := CutParts(span.begin, [namespace.span], [TokenSpan(ident.loc)], span.end);
      MarksWithin(namespace, names);
      OnePart(span.begin, namespace.span, cut, a.marks);
      OneToken(cut, ident.loc, span.end, TypeOf(a.names, ident.name));
      TwoParts(span.begin, cut, span.end, a.marks, [Mark(ident.loc, TypeOf(a.names, ident.name))]);
    case OtherType(span) => NothingWithin(span.begin, span.end);
  }

  lemma {:induction false} WithinOrdered(from: Pos, marks: seq<Mark>, to: Pos)
    requires Within(from, marks, to)
    ensures InOrder(from.line, from.col, false, marks) && forall m :: m in marks ==> m.loc.Range?
    decreases |marks|
  {
    if marks != [] {
      WithinOrdered(At(marks[0].loc), marks[1..], to);
    }
  }

  /** The tokens of a module that is laid out from left to right are decoded to their own positions. */
  lemma ModuleDecoded(chunks: seq<Expr>, names: Namespaces, to: Pos)
    requires AllLaidOut(chunks) && Consecutive(Pos(1, 0), Spans(chunks), to)
    ensures var marks := MarksOfAll(chunks, names).marks;
            && (forall m :: m in marks ==> m.loc.Range?)
            && Decoded(Pos(1, 0), Encoded(Pos(1, 0), marks)) == seq(|marks|, i requires 0 <= i < |marks| => At(marks[i].loc))
  {
    var marks := MarksOfAll(chunks, names).marks;
    AllWithin(Pos(1, 0), chunks, to, names);
    WithinOrdered(Pos(1, 0), marks, to);
    DecodedIffInOrder(Pos(1, 0), false, marks);
  }

  /** A location without a column between two columns, the second in its own line. */
  lemma LineBetween(marks: seq<Mark>)
    requires |marks| == 3 && marks[0].loc.Range? && marks[1].loc.Line? && marks[2].loc.Range?
    requires marks[0].loc.lnBegin < marks[1].loc.lnBegin == marks[2].loc.lnBegin
    ensures InOrder(1, 0, false, marks) <==> marks[0].loc.colBegin == 0 || marks[2].loc.colBegin == 0
  {
    var (l, p, next) := (marks[0].loc.lnBegin, marks[0].loc.colBegin, marks[2].loc.lnBegin);
    assert marks[1..][1..][1..] == [];
    assert InOrder(next, p, true, marks[1..][1..]) <==> p == 0 || marks[2].loc.colBegin == 0;
    assert InOrder(l, p, false, marks[1..]) <==> InOrder(next, p, true, marks[1..][1..]);
  }

  /**
   A parameter whose pattern has no location, but whose type has one, is at a line without a column. After it
   the next name of that line is misplaced, unless it or the last column before is at the start of its line.
   */
  lemma ParameterMisplacesNext(l: LineNumber, p: nat, type_: Location, c: nat, span: Span, name: string)
    requires type_.Range? && l < type_.lnEnd
    ensures LeftMainConcat(Unknown, type_) == Line(type_.lnEnd)
    ensures var param := LeftMainConcat(Unknown, type_);
            var tree := [Literal(span, Range(l, p, l, p + 1), Number),
                         Lambda(span, Params([param], None, []), [Expr.Variable(span, Ident(name, Range(type_.lnEnd, c, type_.lnEnd, c + 1)))])];
            var marks := MarksOfAll(tree, [map[]]).marks;
            (Recovered(marks, Decoded(Pos(1, 0), Encoded(Pos(1, 0), marks))) <==> p == 0 || c == 0)
  {
    var param := LeftMainConcat(Unknown, type_);
    var (first, last) := (Range(l, p, l, p + 1), Range(type_.lnEnd, c, type_.lnEnd, c + 1));
    var variable := Expr.Variable(span, Ident(name, last));
    var lambda := Lambda(span, Params([param], None, []), [variable]);
    var tree := [Literal(span, first, Number), lambda];
    var names: Namespaces := [map[]];
    assert [variable][1..] == [] && [lambda][1..] == [] && tree[1..] == [lambda];
    assert ParamLocs(Some(Params([param], None, []))) == [param];
    assert AllMarked([param], Parameter) == [Mark(param, Parameter)];
    var typ := TypeOf(names + [map[]], name);
    assert MarksOfAll([variable], names + [map[]]).marks == [Mark(last, typ)];
    assert MarksOf(lambda, names).marks == [Mark(param, Parameter), Mark(last, typ)];
    assert MarksOfAll([lambda], names).marks == [Mark(param, Parameter), Mark(last, typ)];
    var marks := MarksOfAll(tree, names).marks;
    assert MarksOf(tree[0], names) == Marks([Mark(first, Number)], names);
    assert marks == [Mark(first, Number)] + [Mark(param, Parameter), Mark(last, typ)];
    DecodedIffInOrder(Pos(1, 0), false, marks);
    LineBetween(marks);
  }

  // ---- what a name stands for, told by the order of the text ----

  /** What happens from left to right: blocks begin and end, names are bound and used, and other tokens are shown. */
  datatype Event = Enter | Leave | Bind(name: string, typ: TokenType) | Use(ident: Ident) | Show(mark: Mark)

  function Shown(marks: seq<Mark>): seq<Event> {
    seq(|marks|, i requires 0 <= i < |marks| => Show(marks[i]))
  }

  function BlockEvents(params: Option<Params>, body: seq<Event>): seq<Event> {
    [Enter] + (Shown(AllMarked(ParamLocs(params), Parameter)) + (body + [Leave]))
  }

  function Events(e: Expr): seq<Event>
    decreases e, 1
  {
    match e
    case Literal(_, loc, typ) => [Show(Mark(loc, typ))]
    case Def(_, name, typ, decorators, params, body) =>
      [Bind(name, typ)] + (EventsAll(decorators) + BlockEvents(params, EventsAll(body)))
    case Lambda(_, params, body) => BlockEvents(Some(params), EventsAll(body))
    case Methods(_, cls, defs) => EventsOfType(cls) + EventsAll(defs)
    case Variable(_, ident) => [Use(ident)]
    case Attribute(_, obj, attr) => Events(obj) + [Show(Mark(attr, Property))]
    case Call(_, callee, posArgs, varArgs, kwArgs) =>
      Events(callee) + (EventsAll(posArgs) + (EventsAll(varArgs) + EventsAll(kwArgs)))
    case BinOp(_, lhs, op, rhs) => Events(lhs) + ([Show(Mark(op, Operator))] + Events(rhs))
    case UnaryOp(_, op, operand) => [Show(Mark(op, Operator))] + Events(operand)
    case Other(_) => []
  }

  function EventsAll(es: seq<Expr>): seq<Event>
    decreases es, 0
  {
    if es == [] then [] else Events(es[0]) + EventsAll(es[1..])
  }

  function EventsOfType(t: TypeSpec): seq<Event>
    decreases t, 0
  {
    match t
    case Mono(_, ident) => [Use(ident)]
    case Poly(_, acc) => [Show(Mark(acc, Type))]
    case InNamespace(_, namespace, ident) => Events(namespace) + [Use(ident)]
    case OtherType(_) => []
  }

  /** Looking back for the last binding of a name, past `closed` blocks that have ended; the blocks in between are passed over. */
  function LastBinding(events: seq<Event>, name: string, closed: nat): TokenType
    decreases |events|
  {
    if events == [] then TokenType.Variable
    else
      var n := |events| - 1;
      match events[n]
      case Leave => LastBinding(events[..n], name, closed + 1)
      case Enter => LastBinding(events[..n], name, if closed > 0 then closed - 1 else 0)
      case Bind(x, typ) => if x == name && closed == 0 then typ else LastBinding(events[..n], name, closed)
      case _ => LastBinding(events[..n], name, closed)
  }

  /** The token of an event, if any, after those before. */
  function SeenAt(before: seq<Event>, e: Event): seq<Mark> {
    match e
    case Use(ident) => [Mark(ident.loc, LastBinding(before, ident.name, 0))]
    case Show(mark) => [mark]
    case _ => []
  }

  function Seen(before: seq<Event>, events: seq<Event>): seq<Mark>
    decreases |events|
  {
    if events == [] then [] else SeenAt(before, events[0]) + Seen(before + [events[0]], events[1..])
  }

  /** The namespaces know what looking back finds, within any of the enclosing blocks. */
  ghost predicate Stands(names: Namespaces, before: seq<Event>) {
    forall key: string, k: nat :: k <= |names| ==> TypeOf(names[..|names| - k], key) == LastBinding(before, key, k)
  }

  ghost predicate Explains(m: Marks, before: seq<Event>, events: seq<Event>) {
    m.names != [] && m.marks == Seen(before, events) && Stands(m.names, before + events)
  }

  lemma {:induction false} SeenConcat(before: seq<Event>, a: seq<Event>, b: seq<Event>)
    ensures Seen(before, a + b) == Seen(before, a) + Seen(before + a, b)
    decreases |a|
  {
    hide SeenAt;
    if a == [] {
      assert a + b == b && before + a == before;
    } else {
      SeenConcat(before + [a[0]], a[1..], b);
      assert (a + b)[1..] == a[1..] + b && (a + b)[0] == a[0] && before + [a[0]] + a[1..] == before + a;
      Regrouped(SeenAt(before, a[0]), Seen(before + [a[0]], a[1..]), Seen(before + a, b));
    }
  }

  lemma Regrouped<T>(a: seq<T>, b: seq<T>, c: seq<T>)
    ensures a + (b + c) == a + b + c
  {
  }

  lemma ExplainsThen(a: Marks, before: seq<Event>, x: seq<Event>, b: Marks, y: seq<Event>)
    requires Explains(a, before, x) && Explains(b, before + x, y)
    ensures Explains(Marks(a.marks + b.marks, b.names), before, x + y)
  {
    hide Seen, Stands;
    SeenConcat(before, x, y);
    assert before + x + y == before + (x + y);
  }

  lemma ExplainsNothing(names: Namespaces, before: seq<Event>)
    requires names != [] && Stands(names, before)
    ensures Explains(Marks([], names), before, [])
  {
    hide Stands;
    assert before + [] == before;
  }

  /** Looking back past one event. */
  lemma LastBindingStep(before: seq<Event>, e: Event, name: string, closed: nat)
    ensures LastBinding(before + [e], name, closed) ==
              match e
              case Leave => LastBinding(before, name, closed + 1)
              case Enter => LastBinding(before, name, if closed > 0 then closed - 1 else 0)
              case Bind(x, typ) => if x == name && closed == 0 then typ else LastBinding(before, name, closed)
              case _ => LastBinding(before, name, closed)
  {
    assert (before + [e])[..|before + [e]| - 1] == before;
  }

  lemma SeenOne(before: seq<Event>, e: Event)
    ensures Seen(before, [e]) == SeenAt(before, e)
  {
    hide SeenAt;
    assert [e][1..] == [];
  }

  lemma StandsAt(names: Namespaces, before: seq<Event>, key: string, k: nat)
    requires Stands(names, before) && k <= |names|
    ensures TypeOf(names[..|names| - k], key) == LastBinding(before, key, k)
  {
  }

  lemma ExplainsBind(names: Namespaces, before: seq<Event>, name: string, typ: TokenType)
    requires names != [] && Stands(names, before)
    ensures Explains(Marks([], WithName(names, name, typ)), before, [Bind(name, typ)])
  {
    hide LastBinding, Seen;
    var (named, after) := (WithName(names, name, typ), before + [Bind(name, typ)]);
    SeenOne(before, Bind(name, typ));
    forall key: string, k: nat | k <= |named|
      ensures TypeOf(named[..|named| - k], key) == LastBinding(after, key, k)
    {
      LastBindingStep(before, Bind(name, typ), key, k);
      StandsAt(names, before, key, k);
      if k == 0 {
        assert named[..|named|] == named && names[..|names|] == names;
        assert named[..|named| - 1] == names[..|names| - 1];
      } else {
        assert named[..|named| - k] == names[..|names| - k];
      }
    }
  }

  lemma ExplainsEnter(names: Namespaces, before: seq<Event>)
    requires names != [] && Stands(names, before)
    ensures Explains(Marks([], names + [map[]]), before, [Enter])
  {
    hide LastBinding, Seen;
    var (inner, after) := (names + [map[]], before + [Enter]);
    SeenOne(before, Enter);
    forall key: string, k: nat | k <= |inner|
      ensures TypeOf(inner[..|inner| - k], key) == LastBinding(after, key, k)
    {
      LastBindingStep(before, Enter, key, k);
      StandsAt(names, before, key, if k == 0 then 0 else k - 1);
      if k == 0 {
        assert inner[..|inner|] == inner && inner[..|inner| - 1] == names[..|names|] == names;
      } else {
        assert inner[..|inner| - k] == names[..|names| - (k - 1)];
      }
    }
  }

  lemma ExplainsLeave(names: Namespaces, before: seq<Event>)
    requires |names| > 1 && Stands(names, before)
    ensures Explains(Marks([], names[..|names| - 1]), before, [Leave])
  {
    hide LastBinding, Seen;
    var (outer, after) := (names[..|names| - 1], before + [Leave]);
    SeenOne(before, Leave);
    forall key: string, k: nat | k <= |outer|
      ensures TypeOf(outer[..|outer| - k], key) == LastBinding(after, key, k)
    {
      LastBindingStep(before, Leave, key, k);
      StandsAt(names, before, key, k + 1);
      assert outer[..|outer| - k] == names[..|names| - (k + 1)];
    }
  }

  /** A token changes no binding. */
  lemma StandsAfterToken(names: Namespaces, before: seq<Event>, e: Event)
    requires Stands(names, before) && (e.Use? || e.Show?)
    ensures Stands(names, before + [e])
  {
    hide TypeOf, LastBinding;
    forall key: string, k: nat | k <= |names|
      ensures TypeOf(names[..|names| - k], key) == LastBinding(before + [e], key, k)
    {
      LastBindingStep(before, e, key, k);
      StandsAt(names, before, key, k);
    }
  }

  lemma ExplainsShow(names: Namespaces, before: seq<Event>, m: Mark)
    requires names != [] && Stands(names, before)
    ensures Explains(Marks([m], names), before, [Show(m)])
  {
    hide Stands, Seen;
    StandsAfterToken(names, before, Show(m));
    SeenOne(before, Show(m));
  }

  lemma ExplainsUse(names: Namespaces, before: seq<Event>, ident: Ident)
    requires names != [] && Stands(names, before)
    ensures Explains(Marks([Mark(ident.loc, TypeOf(names, ident.name))], names), before, [Use(ident)])
  {
    hide Stands, Seen, TypeOf, LastBinding;
    StandsAt(names, before, ident.name, 0);
    assert names[..|names| - 0] == names;
    StandsAfterToken(names, before, Use(ident));
    SeenOne(before, Use(ident));
  }

  lemma {:induction false} ExplainsShown(names: Namespaces, before: seq<Event>, marks: seq<Mark>)
    requires names != [] && Stands(names, before)
    ensures Explains(Marks(marks, names), before, Shown(marks))
    decreases |marks|
  {
    hide Stands, Explains;
    if marks == [] {
      ExplainsNothing(names, before);
      assert Shown(marks) == [];
    } else {
      ExplainsShow(names, before, marks[0]);
      ExplainedStands(Marks([marks[0]], names), before, [Show(marks[0])]);
      ExplainsShown(names, before + [Show(marks[0])], marks[1..]);
      ExplainsThen(Marks([marks[0]], names), before, [Show(marks[0])], Marks(marks[1..], names), Shown(marks[1..]));
      assert Shown(marks) == [Show(marks[0])] + Shown(marks[1..]) && marks == [marks[0]] + marks[1..];
    }
  }

  lemma ExplainedStands(m: Marks, before: seq<Event>, events: seq<Event>)
    requires Explains(m, before, events)
    ensures m.names != [] && Stands(m.names, before + events)
  {
  }

  lemma {:induction false} BlockExplained(names: Namespaces, before: seq<Event>, params: Option<Params>, body: seq<Expr>)
    requires names != [] && Stands(names, before)
    ensures var c := MarksOfAll(body, names + [map[]]);
            Explains(Marks(AllMarked(ParamLocs(params), Parameter) + c.marks, c.names[..|names|]), before,
              BlockEvents(params, EventsAll(body)))
    decreases body, 1
  {
    hide Stands, Explains, AllMarked, ParamLocs, Shown, EventsAll, MarksOfAll;
    var (inner, ps) := (names + [map[]], AllMarked(ParamLocs(params), Parameter));
    var c := MarksOfAll(body, inner);
    var b1 := before + [Enter];
    ExplainsEnter(names, before);
    ExplainedStands(Marks([], inner), before, [Enter]);
    ExplainsShown(inner, b1, ps);
    ExplainedStands(Marks(ps, inner), b1, Shown(ps));
    var b2 := b1 + Shown(ps);
    AllExplained(inner, b2, body);
    ExplainedStands(c, b2, EventsAll(body));
    ExplainsLeave(c.names, b2 + EventsAll(body));
    var outer := c.names[..|c.names| - 1];
    ExplainsThen(c, b2, EventsAll(body), Marks([], outer), [Leave]);
    ExplainsThen(Marks(ps, inner), b1, Shown(ps), Marks(c.marks + [], outer), EventsAll(body) + [Leave]);
    ExplainsThen(Marks([], inner), before, [Enter], Marks(ps + (c.marks + []), outer), Shown(ps) + (EventsAll(body) + [Leave]));
    assert [] + (ps + (c.marks + [])) == ps + c.marks;
  }

  lemma {:induction false} AllExplained(names: Namespaces, before: seq<Event>, es: seq<Expr>)
    requires names != [] && Stands(names, before)
    ensures Explains(MarksOfAll(es, names), before, EventsAll(es))
    decreases es, 0
  {
    hide Stands, Explains, MarksOf, Events;
    if es == [] {
      ExplainsNothing(names, before);
    } else {
      var a := MarksOf(es[0], names);
      Explained(names, before, es[0]);
      ExplainedStands(a, before, Events(es[0]));
      AllExplained(a.names, before + Events(es[0]), es[1..]);
      ExplainsThen(a, before, Events(es[0]), MarksOfAll(es[1..], a.names), EventsAll(es[1..]));
    }
  }

  lemma {:induction false} TypeExplained(names: Namespaces, before: seq<Event>, t: TypeSpec)
    requires names != [] && Stands(names, before)
    ensures Explains(MarksOfType(t, names), before, EventsOfType(t))
    decreases t, 0
  {
    hide Stands, Explains, MarksOf, Events, TypeOf;
    match t
    case Mono(_, ident) => ExplainsUse(names, before, ident);
    case Poly(_, acc) => ExplainsShow(names, before, Mark(acc, Type));
    case InNamespace(_, namespace, ident) =>
      var a := MarksOf(namespace, names);
      Explained(names, before, namespace);
      ExplainedStands(a, before, Events(namespace));
      ExplainsUse(a.names, before + Events(namespace), ident);
      ExplainsThen(a, before, Events(namespace), Marks([Mark(ident.loc, TypeOf(a.names, ident.name))], a.names), [Use(ident)]);
    case OtherType(_) => ExplainsNothing(names, before);
  }

  lemma {:induction false} CallExplained(names: Namespaces, before: seq<Event>, e: Expr)
    requires e.Call? && names != [] && Stands(names, before)
    ensures Explains(MarksOf(e, names), before, Events(e))
    decreases e, 1
  {
    hide Stands, Explains, MarksOfAll, EventsAll;
    var f := MarksOf(e.callee, names);
    var a := MarksOfAll(e.posArgs, f.names);
    var b := MarksOfAll(e.varArgs, a.names);
    var c := MarksOfAll(e.kwArgs, b.names);
    var (x, y, z, w) := (Events(e.callee), EventsAll(e.posArgs), EventsAll(e.varArgs), EventsAll(e.kwArgs));
    Explained(names, before, e.callee);
    ExplainedStands(f, before, x);
    AllExplained(f.names, before + x, e.posArgs);
    ExplainedStands(a, before + x, y);
    AllExplained(a.names, before + x + y, e.varArgs);
    ExplainedStands(b, before + x + y, z);
    AllExplained(b.names, before + x + y + z, e.kwArgs);
    ExplainsThen(b, before + x + y, z, c, w);
    ExplainsThen(a, before + x, y, Marks(b.marks + c.marks, c.names), z + w);
    ExplainsThen(f, before, x, Marks(a.marks + (b.marks + c.marks), c.names), y + (z + w));
    assert a.marks + (b.marks + c.marks) == a.marks + b.marks + c.marks;
  }

  lemma {:induction false} Explained(names: Namespaces, before: seq<Event>, e: Expr)
    requires names != [] && Stands(names, before)
    ensures Explains(MarksOf(e, names), before, Events(e))
    decreases e, 2
  {
    hide Stands, Explains, TypeOf, MarksOfAll, EventsAll, MarksOfType, EventsOfType, BlockEvents, AllMarked, ParamLocs;
    match e
    case Literal(_, loc, typ) => ExplainsShow(names, before, Mark(loc, typ));
    case Def(_, name, typ, decorators, params, body) =>
      var named := WithName(names, name, typ);
      var a := MarksOfAll(decorators, named);
      ExplainsBind(names, before, name, typ);
      ExplainedStands(Marks([], named), before, [Bind(name, typ)]);
      AllExplained(named, before + [Bind(name, typ)], decorators);
      ExplainedStands(a, before + [Bind(name, typ)], EventsAll(decorators));
      BlockExplained(a.names, before + [Bind(name, typ)] + EventsAll(decorators), params, body);
      var c := MarksOfAll(body, a.names + [map[]]);
      var block := Marks(AllMarked(ParamLocs(params), Parameter) + c.marks, c.names[..|a.names|]);
      ExplainsThen(a, before + [Bind(name, typ)], EventsAll(decorators), block, BlockEvents(params, EventsAll(body)));
      ExplainsThen(Marks([], named), before, [Bind(name, typ)], Marks(a.marks + block.marks, block.names),
        EventsAll(decorators) + BlockEvents(params, EventsAll(body)));
      assert [] + (a.marks + block.marks) == a.marks + block.marks;
    case Lambda(_, params, body) => BlockExplained(names, before, Some(params), body);
    case Methods(_, cls, defs) =>
      var a := MarksOfType(cls, names);
      TypeExplained(names, before, cls);
      ExplainedStands(a, before, EventsOfType(cls));
      AllExplained(a.names, before + EventsOfType(cls), defs);
      ExplainsThen(a, before, EventsOfType(cls), MarksOfAll(defs, a.names), EventsAll(defs));
    case Variable(_, ident) => ExplainsUse(names, before, ident);
    case Attribute(_, obj, attr) =>
      var a := MarksOf(obj, names);
      Explained(names, before, obj);
      ExplainedStands(a, before, Events(obj));
      ExplainsShow(a.names, before + Events(obj), Mark(attr, Property));
      ExplainsThen(a, before, Events(obj), Marks([Mark(attr, Property)], a.names), [Show(Mark(attr, Property))]);
    case Call(_, _, _, _, _) => CallExplained(names, before, e);
    case BinOp(_, lhs, op, rhs) =>
      var a := MarksOf(lhs, names);
      var b := MarksOf(rhs, a.names);
      var (x, y) := ([Show(Mark(op, Operator))], before + Events(lhs));
      Explained(names, before, lhs);
      ExplainedStands(a, before, Events(lhs));
      ExplainsShow(a.names, y, Mark(op, Operator));
      ExplainedStands(Marks([Mark(op, Operator)], a.names), y, x);
      Explained(a.names, y + x, rhs);
      ExplainsThen(Marks([Mark(op, Operator)], a.names), y, x, b, Events(rhs));
      ExplainsThen(a, before, Events(lhs), Marks([Mark(op, Operator)] + b.marks, b.names), x + Events(rhs));
      assert a.marks + ([Mark(op, Operator)] + b.marks) == a.marks + [Mark(op, Operator)] + b.marks;
    case UnaryOp(_, op, operand) =>
      var x := [Show(Mark(op, Operator))];
      ExplainsShow(names, before, Mark(op, Operator));
      ExplainedStands(Marks([Mark(op, Operator)], names), before, x);
      Explained(names, before + x, operand);
      ExplainsThen(Marks([Mark(op, Operator)], names), before, x, MarksOf(operand, names), Events(operand));
    case Other(_) => ExplainsNothing(names, before);
  }

  /**
   The marks of a module are the tokens of its text in order, and every name has the type of its last binding before,
   in the innermost of the blocks around it that has one; without any it is a variable.
   */
  lemma NamesByLastBinding(chunks: seq<Expr>)
    ensures MarksOfAll(chunks, [map[]]).marks == Seen([], EventsAll(chunks))
  {
    hide MarksOfAll, EventsAll, Seen;
    var names: Namespaces := [map[]];
    forall key: string, k: nat | k <= |names|
      ensures TypeOf(names[..|names| - k], key) == LastBinding([], key, k)
    {
      assert k == 0 ==> names[..1] == names && names[..0] == [];
    }
    AllExplained(names, [], chunks);
  }

  // ---- every part has its token ----

  /** A part of an expression that is traversed. */
  predicate PartOf(part: Expr, whole: Expr) {
    match whole
    case Def(_, _, _, decorators, _, body) => part in decorators || part in body
    case Lambda(_, _, body) => part in body
    case Methods(_, cls, defs) => part in defs || (cls.InNamespace? && part == cls.namespace)
    case Attribute(_, obj, _) => part == obj
    case Call(_, callee, posArgs, varArgs, kwArgs) => part == callee || part in posArgs || part in varArgs || part in kwArgs
    case BinOp(_, lhs, _, rhs) => part == lhs || part == rhs
    case UnaryOp(_, _, operand) => part == operand
    case _ => false
  }

  /** The locations of an expression that are not those of its parts. */
  function OwnLocs(e: Expr): seq<Location> {
    match e
    case Literal(_, loc, _) => [loc]
    case Def(_, _, _, _, params, _) => ParamLocs(params)
    case Lambda(_, params, _) => ParamLocs(Some(params))
    case Methods(_, cls, _) =>
      (match cls
       case Mono(_, ident) => [ident.loc]
       case Poly(_, acc) => [acc]
       case InNamespace(_, _, ident) => [ident.loc]
       case OtherType(_) => [])
    case Variable(_, ident) => [ident.loc]
    case Attribute(_, _, attr) => [attr]
    case BinOp(_, _, op, _) => [op]
    case UnaryOp(_, op, _) => [op]
    case _ => []
  }

  /** From a chunk inwards, each a part of the one before, to an expression with that location. */
  predicate LeadsTo(es: seq<Expr>, c: seq<Expr>, loc: Location) {
    && c != [] && c[0] in es && loc in OwnLocs(c[|c| - 1])
    && forall i {:trigger c[i]} :: 0 < i < |c| ==> PartOf(c[i], c[i - 1])
  }

  predicate HasToken(events: seq<Event>, loc: Location) {
    exists e :: e in events && ((e.Use? && e.ident.loc == loc) || (e.Show? && e.mark.loc == loc))
  }

  lemma HasTokenConcat(a: seq<Event>, b: seq<Event>, loc: Location)
    ensures HasToken(a + b, loc) <==> HasToken(a, loc) || HasToken(b, loc)
  {
  }

  lemma {:induction false} HasTokenAll(es: seq<Expr>, loc: Location)
    ensures HasToken(EventsAll(es), loc) <==> exists e :: e in es && HasToken(Events(e), loc)
    decreases |es|
  {
    hide Events;
    if es != [] {
      hide HasToken;
      HasTokenConcat(Events(es[0]), EventsAll(es[1..]), loc);
      HasTokenAll(es[1..], loc);
      if e :| e in es && HasToken(Events(e), loc) {
        assert e == es[0] || e in es[1..];
      }
      if e :| e in es[1..] && HasToken(Events(e), loc) {
        assert e in es;
      }
    }
  }

  lemma HasTokenOne(e: Event, loc: Location)
    ensures HasToken([e], loc) <==> (e.Use? && e.ident.loc == loc) || (e.Show? && e.mark.loc == loc)
  {
    assert e in [e];
  }

  lemma HasTokenShown(marks: seq<Mark>, loc: Location)
    ensures HasToken(Shown(marks), loc) <==> exists m :: m in marks && m.loc == loc
  {
    if m :| m in marks && m.loc == loc {
      var i :| 0 <= i < |marks| && marks[i] == m;
      assert Shown(marks)[i] == Show(m);
    }
  }

  lemma HasTokenParams(params: Option<Params>, body: seq<Event>, loc: Location)
    ensures HasToken(BlockEvents(params, body), loc) <==> loc in ParamLocs(params) || HasToken(body, loc)
  {
    hide HasToken, Shown, ParamLocs;
    var ps := AllMarked(ParamLocs(params), Parameter);
    HasTokenConcat([Enter], Shown(ps) + (body + [Leave]), loc);
    HasTokenConcat(Shown(ps), body + [Leave], loc);
    HasTokenConcat(body, [Leave], loc);
    HasTokenOne(Enter, loc);
    HasTokenOne(Leave, loc);
    HasTokenShown(ps, loc);
    if loc in ParamLocs(params) {
      var i :| 0 <= i < |ParamLocs(params)| && ParamLocs(params)[i] == loc;
      assert ps[i] == Mark(loc, Parameter);
    }
  }

  /** An expression has a token at a location if it is its own, or that of a part. */
  lemma HasTokenIff(e: Expr, loc: Location)
    ensures HasToken(Events(e), loc) <==> loc in OwnLocs(e) || exists part :: PartOf(part, e) && HasToken(Events(part), loc)
  {
    hide HasToken, BlockEvents, ParamLocs, EventsAll;
    match e
    case Literal(_, l, typ) => HasTokenOne(Show(Mark(l, typ)), loc);
    case Def(_, name, typ, decorators, params, body) =>
      HasTokenConcat([Bind(name, typ)], EventsAll(decorators) + BlockEvents(params, EventsAll(body)), loc);
      HasTokenConcat(EventsAll(decorators), BlockEvents(params, EventsAll(body)), loc);
      HasTokenOne(Bind(name, typ), loc);
      HasTokenAll(decorators, loc);
      HasTokenParams(params, EventsAll(body), loc);
      HasTokenAll(body, loc);
    case Lambda(_, params, body) =>
      HasTokenParams(Some(params), EventsAll(body), loc);
      HasTokenAll(body, loc);
    case Methods(_, cls, defs) =>
      assert cls.InNamespace? ==> PartOf(cls.namespace, e);
      HasTokenConcat(EventsOfType(cls), EventsAll(defs), loc);
      HasTokenAll(defs, loc);
      HasTokenType(cls, loc);
    case Variable(_, ident) => HasTokenOne(Use(ident), loc);
    case Attribute(_, obj, attr) =>
      assert PartOf(obj, e);
      HasTokenConcat(Events(obj), [Show(Mark(attr, Property))], loc);
      HasTokenOne(Show(Mark(attr, Property)), loc);
    case Call(_, callee, posArgs, varArgs, kwArgs) =>
      assert PartOf(callee, e);
      HasTokenConcat(Events(callee), EventsAll(posArgs) + (EventsAll(varArgs) + EventsAll(kwArgs)), loc);
      HasTokenConcat(EventsAll(posArgs), EventsAll(varArgs) + EventsAll(kwArgs), loc);
      HasTokenConcat(EventsAll(varArgs), EventsAll(kwArgs), loc);
      HasTokenAll(posArgs, loc);
      HasTokenAll(varArgs, loc);
      HasTokenAll(kwArgs, loc);
    case BinOp(_, lhs, op, rhs) =>
      assert PartOf(lhs, e) && PartOf(rhs, e);
      HasTokenConcat(Events(lhs), [Show(Mark(op, Operator))] + Events(rhs), loc);
      HasTokenConcat([Show(Mark(op, Operator))], Events(rhs), loc);
      HasTokenOne(Show(Mark(op, Operator)), loc);
    case UnaryOp(_, op, operand) =>
      assert PartOf(operand, e);
      HasTokenConcat([Show(Mark(op, Operator))], Events(operand), loc);
      HasTokenOne(Show(Mark(op, Operator)), loc);
    case Other(_) => HasTokenNone(loc);
  }

  lemma HasTokenNone(loc: Location)
    ensures !HasToken([], loc)
  {
  }

  lemma HasTokenType(t: TypeSpec, loc: Location)
    ensures HasToken(EventsOfType(t), loc) <==>
              || (t.Mono? && loc == t.ident.loc) || (t.Poly? && loc == t.acc)
              || (t.InNamespace? && (loc == t.t.loc || HasToken(Events(t.namespace), loc)))
  {
    hide HasToken, Events;
    match t
    case Mono(_, ident) => HasTokenOne(Use(ident), loc);
    case Poly(_, acc) => HasTokenOne(Show(Mark(acc, Type)), loc);
    case InNamespace(_, namespace, ident) =>
      HasTokenConcat(Events(namespace), [Use(ident)], loc);
      HasTokenOne(Use(ident), loc);
    case OtherType(_) => HasTokenNone(loc);
  }

  lemma PartIsSmaller(part: Expr, e: Expr)
    requires PartOf(part, e)
    ensures part < e
  {
  }

  /** The same, from the expression itself. */
  predicate LeadsFrom(e: Expr, c: seq<Expr>, loc: Location) {
    LeadsTo([e], c, loc)
  }

  lemma LeadsFurther(e: Expr, part: Expr, c: seq<Expr>, loc: Location)
    requires LeadsFrom(part, c, loc) && PartOf(part, e)
    ensures LeadsFrom(e, [e] + c, loc)
  {
    hide PartOf, OwnLocs;
  }

  lemma LeadsOneLess(e: Expr, c: seq<Expr>, loc: Location)
    requires LeadsFrom(e, c, loc) && |c| > 1
    ensures PartOf(c[1], e) && LeadsFrom(c[1], c[1..], loc)
  {
    hide PartOf, OwnLocs;
    assert PartOf(c[1], c[0]);
    forall i {:trigger c[1..][i]} | 0 < i < |c| - 1
      ensures PartOf(c[1..][i], c[1..][i - 1])
    {
      assert PartOf(c[i + 1], c[i]);
    }
  }

  lemma {:induction false} TokenIsLed(e: Expr, loc: Location) returns (c: seq<Expr>)
    requires HasToken(Events(e), loc)
    ensures LeadsFrom(e, c, loc)
    decreases e
  {
    hide PartOf, OwnLocs, Events, HasToken;
    HasTokenIff(e, loc);
    if loc in OwnLocs(e) {
      c := [e];
    } else {
      hide LeadsFrom;
      var part :| PartOf(part, e) && HasToken(Events(part), loc);
      PartIsSmaller(part, e);
      c := TokenIsLed(part, loc);
      LeadsFurther(e, part, c, loc);
      c := [e] + c;
    }
  }

  lemma {:induction false} LedHasToken(e: Expr, c: seq<Expr>, loc: Location)
    requires LeadsFrom(e, c, loc)
    ensures HasToken(Events(e), loc)
    decreases |c|
  {
    hide PartOf, OwnLocs, Events, HasToken;
    HasTokenIff(e, loc);
    if |c| > 1 {
      hide LeadsFrom;
      LeadsOneLess(e, c, loc);
      LedHasToken(c[1], c[1..], loc);
    }
  }

  lemma {:induction false} SeenLocations(before: seq<Event>, events: seq<Event>, loc: Location)
    ensures HasToken(events, loc) <==> exists m :: m in Seen(before, events) && m.loc == loc
    decreases |events|
  {
    if events != [] {
      hide HasToken, LastBinding, Seen;
      var (e, rest) := ([events[0]], events[1..]);
      assert events == e + rest;
      HasTokenConcat(e, rest, loc);
      HasTokenOne(events[0], loc);
      SeenConcat(before, e, rest);
      SeenOne(before, events[0]);
      SeenLocations(before + e, rest, loc);
      InEither(Seen(before, e), Seen(before + e, rest), loc);
    }
  }

  lemma InEither(a: seq<Mark>, b: seq<Mark>, loc: Location)
    ensures (exists m :: m in a + b && m.loc == loc) <==> (exists m :: m in a && m.loc == loc) || exists m :: m in b && m.loc == loc
  {
    if m :| m in a && m.loc == loc {
      assert m in a + b;
    }
    if m :| m in b && m.loc == loc {
      assert m in a + b;
    }
  }

  /** Every name, literal, parameter and operator of a module has a token, however deep it is, and nothing else has. */
  lemma TokenIffInTree(chunks: seq<Expr>, loc: Location)
    ensures (exists m :: m in MarksOfAll(chunks, [map[]]).marks && m.loc == loc) <==> exists c :: LeadsTo(chunks, c, loc)
  {
    hide MarksOfAll, Seen, HasToken, Events, EventsAll, PartOf, OwnLocs;
    NamesByLastBinding(chunks);
    SeenLocations([], EventsAll(chunks), loc);
    HasTokenAll(chunks, loc);
    if e :| e in chunks && HasToken(Events(e), loc) {
      var c := TokenIsLed(e, loc);
      assert LeadsTo(chunks, c, loc);
    }
    if c :| LeadsTo(chunks, c, loc) {
      LedHasToken(c[0], c, loc);
    }
  }
}
