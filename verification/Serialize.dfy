/**
 Python byte code files: constants and code objects are written as bytes, and read back.
 A string is the sequence of its UTF-8 bytes.
 */
module Marshal {
  import opened Wrappers

  const U32_SIZE := 0x1_0000_0000
  const U64_SIZE := 0x1_0000_0000_0000_0000

  type Byte = b: int | 0 <= b < 256
  type Bytes = seq<Byte>
  type U32 = n: int | 0 <= n < 0x1_0000_0000
  type U64 = n: int | 0 <= n < 0x1_0000_0000_0000_0000
  type I32 = n: int | -0x8000_0000 <= n < 0x8000_0000

  datatype Value =
    | Int(i: I32)
    | Nat(n: U64)
    | Float(bits: U64)
    | Str(s: Bytes)
    | Bool(b: bool)
    | List(elems: seq<Value>)
    | Tuple(elems: seq<Value>)
    | NoneValue
    | Code(code: CodeObj)

  datatype Counts = Counts(argcount: U32, posonlyargcount: U32, kwonlyargcount: U32, nlocals: U32, stacksize: U32, flags: U32)

  datatype Locals = Locals(varnames: seq<Bytes>, freevars: seq<Bytes>, cellvars: seq<Bytes>)

  datatype Trailer = Trailer(filename: Bytes, name: Bytes, qualname: Bytes, firstlineno: U32, lnotab: Bytes, exceptiontable: Bytes)

  datatype CodeObj = CodeObj(counts: Counts, instructions: Bytes, consts: seq<Value>, names: seq<Bytes>, locals: Locals, trailer: Trailer)

  // ---- integers ----

  /** The lowest `k` bytes of a number, lowest first. */
  function ToLe(n: nat, k: nat): (r: Bytes)
    ensures |r| == k
  {
    if k == 0 then [] else [n % 256] + ToLe(n / 256, k - 1)
  }

  function FromLe(bytes: Bytes): nat {
    if bytes == [] then 0 else bytes[0] + 256 * FromLe(bytes[1..])
  }

  function Power256(k: nat): (p: nat)
    ensures p > 0
  {
    if k == 0 then 1 else 256 * Power256(k - 1)
  }

  lemma {:induction false} LeExact(n: nat, k: nat)
    requires n < Power256(k)
    ensures FromLe(ToLe(n, k)) == n
  {
    if k > 0 {
      LeExact(n / 256, k - 1);
    }
  }

  lemma {:induction false} LeTruncates(n: nat, k: nat, q: nat)
    ensures ToLe(n + Power256(k) * q, k) == ToLe(n, k)
  {
    if k > 0 {
      PowerTimes(k, q);
      hide Power256;
      ByteShift(n, Power256(k - 1) * q);
      LeTruncates(n / 256, k - 1, q);
    }
  }

  lemma PowerTimes(k: nat, q: nat)
    requires k > 0
    ensures Power256(k) * q == 256 * (Power256(k - 1) * q)
  {
  }

  lemma ByteShift(n: nat, t: nat)
    ensures (n + 256 * t) / 256 == n / 256 + t && (n + 256 * t) % 256 == n % 256
  {
  }

  lemma Powers()
    ensures Power256(4) == U32_SIZE && Power256(8) == U64_SIZE
  {
  }

  /** Four bytes hold a number modulo their range. */
  lemma U32RoundTrip(n: nat)
    ensures FromLe(ToLe(n, 4)) == n % U32_SIZE
  {
    Powers();
    LeTruncates(n % U32_SIZE, 4, n / U32_SIZE);
    LeExact(n % U32_SIZE, 4);
  }

  lemma U64RoundTrip(n: U64)
    ensures FromLe(ToLe(n, 8)) == n
  {
    Powers();
    LeExact(n, 8);
  }

  /** A 32-bit number read as a signed one. */
  function Signed(n: U32): I32 {
    if n < 0x8000_0000 then n else n - U32_SIZE
  }

  // ---- writing ----

  predicate Ascii(s: Bytes) {
    forall b :: b in s ==> b < 128
  }

  function StrBytes(s: Bytes, interned: bool): Bytes {
    if Ascii(s) && |s| <= 255 then [if interned then 0xDA else 0xFA, |s|] + s
    else [0x75] + ToLe(|s|, 4) + s
  }

  function RawBytes(s: Bytes): Bytes {
    [0x73] + ToLe(|s|, 4) + s
  }

  /** What a tuple of `n` elements begins with. */
  function TupleHeader(n: nat): (r: Bytes)
    ensures r != []
  {
    if n > 255 then [0x28] + ToLe(n, 4) else [0x29, n]
  }

  function AllStrBytes(names: seq<Bytes>): Bytes {
    if names == [] then [] else StrBytes(names[0], true) + AllStrBytes(names[1..])
  }

  function StrsBytes(names: seq<Bytes>): Bytes {
    TupleHeader(|names|) + AllStrBytes(names)
  }

  lemma {:induction false} AllStrBytesAppend(names: seq<Bytes>, i: nat)
    requires i < |names|
    ensures AllStrBytes(names[..i + 1]) == AllStrBytes(names[..i]) + StrBytes(names[i], true)
  {
    if i == 0 {
      assert names[..1][1..] == [];
    } else {
      assert names[..i][1..] == names[1..][..i - 1] && names[..i + 1][1..] == names[1..][..i];
      AllStrBytesAppend(names[1..], i - 1);
    }
  }

  lemma Associate(a: Bytes, b: Bytes, c: Bytes)
    ensures a + b + c == a + (b + c)
  {
  }

  method StrsIntoBytes(names: seq<Bytes>) returns (tuple: Bytes)
    ensures tuple == StrsBytes(names)
  {
    hide StrBytes, ToLe;
    tuple := [];
    if |names| > 255 {
      tuple := tuple + [0x28];
      tuple := tuple + ToLe(|names|, 4);
    } else {
      tuple := tuple + [0x29];
      tuple := tuple + [|names|];
    }
    for i := 0 to |names|
      invariant tuple == TupleHeader(|names|) + AllStrBytes(names[..i])
    {
      AllStrBytesAppend(names, i);
      Associate(TupleHeader(|names|), AllStrBytes(names[..i]), StrBytes(names[i], true));
      tuple := tuple + StrBytes(names[i], true);
    }
    assert names[..|names|] == names;
  }

  function Filtered(names: seq<Bytes>, freevars: seq<Bytes>, cellvars: seq<Bytes>): (r: seq<Bytes>)
    ensures |r| <= |names|
  {
    if names == [] then []
    else (if names[0] in freevars || names[0] in cellvars then [] else [names[0]]) + Filtered(names[1..], freevars, cellvars)
  }

  /** The names of all local variables in one list, in the order of their kinds. */
  function Slots(l: Locals): seq<Bytes> {
    Filtered(l.varnames, l.freevars, l.cellvars) + l.freevars + l.cellvars
  }

  function Times(b: Byte, n: nat): (r: Bytes)
    ensures |r| == n
  {
    if n == 0 then [] else [b] + Times(b, n - 1)
  }

  /** A cell variable is also local, and its kind has both bits. */
  function Kinds(l: Locals): (r: Bytes)
    ensures |r| == |Slots(l)|
  {
    Times(0x20, |Filtered(l.varnames, l.freevars, l.cellvars)|) + Times(0x80, |l.freevars|) + Times(0x40 + 0x20, |l.cellvars|)
  }

  function CountsBytes(c: Counts, minor: nat): Bytes {
    ToLe(c.argcount, 4)
    + ((if minor >= 8 then ToLe(c.posonlyargcount, 4) else [])
    + (ToLe(c.kwonlyargcount, 4)
    + ((if minor < 11 then ToLe(c.nlocals, 4) else [])
    + (ToLe(c.stacksize, 4) + ToLe(c.flags, 4)))))
  }

  function LocalsBytes(l: Locals, minor: nat): Bytes {
    if minor >= 11 then StrsBytes(Slots(l)) + RawBytes(Kinds(l))
    else StrsBytes(l.varnames) + (StrsBytes(l.freevars) + StrsBytes(l.cellvars))
  }

  function TrailerBytes(t: Trailer, minor: nat): Bytes {
    StrBytes(t.filename, false)
    + (StrBytes(t.name, true)
    + ((if minor >= 11 then StrBytes(t.qualname, true) else [])
    + (ToLe(t.firstlineno, 4)
    + (RawBytes(t.lnotab) + if minor >= 11 then RawBytes(t.exceptiontable) else []))))
  }

  function ValueBytes(x: Value, minor: nat): Bytes
    decreases x, 1
  {
    match x
    case Int(i) => [0x69] + ToLe(i % U32_SIZE, 4)
    case Nat(n) => [0x69] + ToLe(n, 4)
    case Float(bits) => [0x67] + ToLe(bits, 8)
    case Str(s) => StrBytes(s, false)
    case Bool(b) => if b then [0x54] else [0x46]
    case List(elems) => TupleHeader(|elems|) + AllBytes(elems, minor)
    case Tuple(elems) => TupleHeader(|elems|) + AllBytes(elems, minor)
    case NoneValue => [0x4E]
    case Code(c) => [0xE3] + CodeBytes(c, minor)
  }

  function AllBytes(xs: seq<Value>, minor: nat): Bytes
    decreases xs, 0
  {
    if xs == [] then [] else ValueBytes(xs[0], minor) + AllBytes(xs[1..], minor)
  }

  /** A code object after its prefix. */
  function CodeBytes(c: CodeObj, minor: nat): Bytes
    decreases c, 1
  {
    CountsBytes(c.counts, minor)
    + (RawBytes(c.instructions)
    + (TupleHeader(|c.consts|) + AllBytes(c.consts, minor)
    + (StrsBytes(c.names)
    + (LocalsBytes(c.locals, minor) + TrailerBytes(c.trailer, minor)))))
  }

  // ---- what a reader of the format finds where ----

  /** The little-endian number in the `i`-th four bytes. */
  function WordAt(b: Bytes, i: nat): nat
    requires 4 * i + 4 <= |b|
  {
    FromLe(b[4 * i..4 * i + 4])
  }

  lemma WordsOf(n: U32, rest: Bytes)
    ensures WordAt(ToLe(n, 4) + rest, 0) == n
    ensures forall i: nat {:trigger WordAt(rest, i)} :: 4 * i + 4 <= |rest| ==> WordAt(ToLe(n, 4) + rest, i + 1) == WordAt(rest, i)
  {
    hide ToLe, FromLe;
    U32RoundTrip(n);
    var b := ToLe(n, 4) + rest;
    assert b[0..4] == ToLe(n, 4);
    forall i: nat {:trigger WordAt(rest, i)} | 4 * i + 4 <= |rest|
      ensures WordAt(b, i + 1) == WordAt(rest, i)
    {
      assert b[4 * (i + 1)..4 * (i + 1) + 4] == rest[4 * i..4 * i + 4];
    }
  }

  /** A code object begins with its numbers: five of them before 3.8 and from 3.11 on, six in between. */
  lemma CountsLayout(c: Counts, minor: nat)
    ensures var b := CountsBytes(c, minor);
            && |b| == (if 8 <= minor < 11 then 24 else 20)
            && WordAt(b, 0) == c.argcount
            && (minor < 8 ==>
                  WordAt(b, 1) == c.kwonlyargcount && WordAt(b, 2) == c.nlocals && WordAt(b, 3) == c.stacksize && WordAt(b, 4) == c.flags)
            && (8 <= minor < 11 ==>
                  && WordAt(b, 1) == c.posonlyargcount && WordAt(b, 2) == c.kwonlyargcount && WordAt(b, 3) == c.nlocals
                  && WordAt(b, 4) == c.stacksize && WordAt(b, 5) == c.flags)
            && (11 <= minor ==>
                  && WordAt(b, 1) == c.posonlyargcount && WordAt(b, 2) == c.kwonlyargcount
                  && WordAt(b, 3) == c.stacksize && WordAt(b, 4) == c.flags)
  {
    hide ToLe, WordAt;
    var last := ToLe(c.flags, 4) + [];
    assert last == ToLe(c.flags, 4);
    WordsOf(c.flags, []);
    var d := ToLe(c.stacksize, 4) + last;
    WordsOf(c.stacksize, last);
    WordsOf(c.nlocals, d);
    var e := (if minor < 11 then ToLe(c.nlocals, 4) else []) + d;
    assert minor >= 11 ==> e == d;
    WordsOf(c.kwonlyargcount, e);
    var f := ToLe(c.kwonlyargcount, 4) + e;
    WordsOf(c.posonlyargcount, f);
    var g := (if minor >= 8 then ToLe(c.posonlyargcount, 4) else []) + f;
    assert minor < 8 ==> g == f;
    WordsOf(c.argcount, g);
  }

  /** The first byte tells what follows, by the letters of Python's format; the high bit asks to remember the object. */
  lemma FirstByte(x: Value, minor: nat)
    ensures var b := ValueBytes(x, minor);
            && b != []
            && match x
               case Int(_) => b[0] == 'i' as int
               case Nat(_) => b[0] == 'i' as int
               case Float(_) => b[0] == 'g' as int
               case Str(s) => b[0] == if Ascii(s) && |s| <= 255 then 'z' as int + 0x80 else 'u' as int
               case Bool(v) => b[0] == if v then 'T' as int else 'F' as int
               case List(elems) => b[0] == if |elems| > 255 then '(' as int else ')' as int
               case Tuple(elems) => b[0] == if |elems| > 255 then '(' as int else ')' as int
               case NoneValue => b[0] == 'N' as int
               case Code(_) => b[0] == 'c' as int + 0x80
  {
    hide ToLe, AllBytes, CodeBytes;
  }

  // ---- reading ----

  /** What a reader returns: a value and the bytes after it, an error, or a panic. */
  datatype Parsed<+T> = Done(value: T, rest: Bytes) | Broken | Panicked {
    predicate IsFailure() {
      !Done?
    }

    function PropagateFailure<U>(): Parsed<U>
      requires IsFailure()
    {
      if Broken? then Broken else Panicked
    }

    function Extract(): (T, Bytes)
      requires !IsFailure()
    {
      (value, rest)
    }
  }

  function Take(v: Bytes, n: nat): (r: Parsed<Bytes>)
    ensures r.Done? ==> |r.rest| == |v| - n
  {
    if n <= |v| then Done(v[..n], v[n..]) else Panicked
  }

  function ReadU32(v: Bytes): (r: Parsed<U32>)
    ensures r.Done? ==> |r.rest| < |v|
  {
    if 4 <= |v| then
      SizeBounds(v[..4]);
      Done(FromLe(v[..4]), v[4..])
    else Panicked
  }

  lemma {:induction false} LeBounds(bytes: Bytes)
    ensures FromLe(bytes) < Power256(|bytes|)
  {
    if bytes != [] {
      LeBounds(bytes[1..]);
    }
  }

  lemma SizeBounds(bytes: Bytes)
    ensures |bytes| == 4 ==> FromLe(bytes) < U32_SIZE
    ensures |bytes| == 8 ==> FromLe(bytes) < U64_SIZE
  {
    Powers();
    LeBounds(bytes);
  }

  /** A length of four bytes, and as many bytes. */
  function ReadSized(v: Bytes): (r: Parsed<Bytes>)
    ensures r.Done? ==> |r.rest| < |v|
  {
    var n :- ReadU32(v);
    Take(n.1, n.0)
  }

  function ReadRaw(v: Bytes): (r: Parsed<Bytes>)
    ensures r.Done? ==> |r.rest| < |v|
  {
    if v == [] then Panicked
    else if v[0] == 0x73 || v[0] == 0xF3 then ReadSized(v[1..])
    else Broken
  }

  function ReadCounts(v: Bytes, minor: nat): (r: Parsed<Counts>)
    ensures r.Done? ==> |r.rest| < |v|
  {
    var arg :- ReadU32(v);
    var posonly :- if minor >= 8 then ReadU32(arg.1) else Done(0, arg.1);
    var kwonly :- ReadU32(posonly.1);
    var nlocals :- if minor >= 11 then Done(0, kwonly.1) else ReadU32(kwonly.1);
    var stacksize :- ReadU32(nlocals.1);
    var flags :- ReadU32(stacksize.1);
    Done(Counts(arg.0, posonly.0, kwonly.0, nlocals.0, stacksize.0, flags.0), flags.1)
  }

  /** The local variables by kind; a kind that is not one of three is unexpected. */
  function Partition(names: seq<Bytes>, kinds: Bytes): Option<Locals>
    requires |names| == |kinds|
  {
    if names == [] then Some(Locals([], [], []))
    else if kinds[0] !in {0x20, 0x40, 0x80} then None
    else
      var rest := Partition(names[1..], kinds[1..]);
      if rest.None? then None
      else
        var l := rest.value;
        if kinds[0] == 0x20 then Some(l.(varnames := [names[0]] + l.varnames))
        else if kinds[0] == 0x80 then Some(l.(freevars := [names[0]] + l.freevars))
        else Some(l.(cellvars := [names[0]] + l.cellvars))
  }

  function Strings(xs: seq<Value>): Option<seq<Bytes>> {
    if xs == [] then Some([])
    else if !xs[0].Str? then None
    else
      var rest := Strings(xs[1..]);
      if rest.None? then None else Some([xs[0].s] + rest.value)
  }

  function ReadValue(v: Bytes, minor: nat): (r: Parsed<Value>)
    ensures r.Done? ==> |r.rest| < |v|
    decreases |v|, 1
  {
    if v == [] then Panicked
    else
      var (prefix, v) := (v[0], v[1..]);
      if prefix in {0x69, 0xE9} then
        var n :- ReadU32(v);
        Done(Int(Signed(n.0)), n.1)
      else if prefix == 0x67 then
        var b :- Take(v, 8);
        SizeBounds(b.0);
        Done(Float(FromLe(b.0)), b.1)
      else if prefix in {0x7A, 0xFA, 0x5A, 0xDA} then
        if v == [] then Panicked
        else
          var s :- Take(v[1..], v[0]);
          Done(Str(s.0), s.1)
      else if prefix in {0x73, 0xF3, 0x75} then
        var s :- ReadSized(v);
        Done(Str(s.0), s.1)
      else if prefix == 0x54 then Done(Bool(true), v)
      else if prefix == 0x46 then Done(Bool(false), v)
      else if prefix in {0x29, 0xA9} then
        if v == [] then Panicked
        else
          var xs :- ReadValues(v[1..], v[0], minor);
          Done(List(xs.0), xs.1)
      else if prefix in {0x28, 0xA8} then
        var n :- ReadU32(v);
        var xs :- ReadValues(n.1, n.0, minor);
        Done(List(xs.0), xs.1)
      else if prefix in {0x63, 0xE3} then
        var c :- ReadCode(v, minor);
        Done(Code(c.0), c.1)
      else if prefix == 0x4E then Done(NoneValue, v)
      else Broken
  }

  function ReadValues(v: Bytes, n: nat, minor: nat): (r: Parsed<seq<Value>>)
    ensures r.Done? ==> |r.rest| <= |v| && |r.value| == n
    decreases |v|, 2, n
  {
    if n == 0 then Done([], v)
    else
      var x :- ReadValue(v, minor);
      var xs :- ReadValues(x.1, n - 1, minor);
      Done([x.0] + xs.0, xs.1)
  }

  function ReadList(v: Bytes, minor: nat): (r: Parsed<seq<Value>>)
    ensures r.Done? ==> |r.rest| < |v|
    decreases |v|, 2
  {
    var x :- ReadValue(v, minor);
    if x.0.List? then Done(x.0.elems, x.1) else Broken
  }

  function ReadStrs(v: Bytes, minor: nat): (r: Parsed<seq<Bytes>>)
    ensures r.Done? ==> |r.rest| < |v|
    decreases |v|, 3
  {
    var xs :- ReadList(v, minor);
    var strs := Strings(xs.0);
    if strs.Some? then Done(strs.value, xs.1) else Broken
  }

  function ReadStr(v: Bytes, minor: nat): (r: Parsed<Bytes>)
    ensures r.Done? ==> |r.rest| < |v|
    decreases |v|, 2
  {
    var x :- ReadValue(v, minor);
    if x.0.Str? then Done(x.0.s, x.1) else Broken
  }

  function ReadLocals(v: Bytes, minor: nat): (r: Parsed<Locals>)
    ensures r.Done? ==> |r.rest| < |v|
    decreases |v|, 4
  {
    if minor >= 11 then
      var names :- ReadStrs(v, minor);
      var kinds :- ReadRaw(names.1);
      if |names.0| != |kinds.0| then Panicked
      else
        var l := Partition(names.0, kinds.0);
        if l.None? then Panicked else Done(l.value, kinds.1)
    else
      var varnames :- ReadStrs(v, minor);
      var freevars :- ReadStrs(varnames.1, minor);
      var cellvars :- ReadStrs(freevars.1, minor);
      Done(Locals(varnames.0, freevars.0, cellvars.0), cellvars.1)
  }

  function ReadTrailer(v: Bytes, minor: nat): (r: Parsed<Trailer>)
    ensures r.Done? ==> |r.rest| < |v|
    decreases |v|, 4
  {
    var filename :- ReadStr(v, minor);
    var name :- ReadStr(filename.1, minor);
    var qualname :- if minor >= 11 then ReadStr(name.1, minor) else Done(name.0, name.1);
    var firstlineno :- ReadU32(qualname.1);
    var lnotab :- ReadRaw(firstlineno.1);
    var exceptiontable :- if minor >= 11 then ReadRaw(lnotab.1) else Done([], lnotab.1);
    Done(Trailer(filename.0, name.0, qualname.0, firstlineno.0, lnotab.0, exceptiontable.0), exceptiontable.1)
  }

  function ReadCode(v: Bytes, minor: nat): (r: Parsed<CodeObj>)
    ensures r.Done? ==> |r.rest| < |v|
    decreases |v|, 5
  {
    var counts :- ReadCounts(v, minor);
    var instructions :- ReadRaw(counts.1);
    var consts :- ReadList(instructions.1, minor);
    var names :- ReadStrs(consts.1, minor);
    var locals :- ReadLocals(names.1, minor);
    var trailer :- ReadTrailer(locals.1, minor);
    Done(CodeObj(counts.0, instructions.0, consts.0, names.0, locals.0, trailer.0), trailer.1)
  }

  // ---- what comes back ----

  /** The value that a reader sees: small integers, lists for tuples, and code as far as its version stores it. */
  function Normal(x: Value, minor: nat): Value
    decreases x, 1
  {
    match x
    case Nat(n) => Int(Signed(n % U32_SIZE))
    case List(elems) => List(NormalAll(elems, minor))
    case Tuple(elems) => List(NormalAll(elems, minor))
    case Code(c) => Code(NormalCode(c, minor))
    case _ => x
  }

  function NormalAll(xs: seq<Value>, minor: nat): (r: seq<Value>)
    ensures |r| == |xs|
    decreases xs, 0
  {
    if xs == [] then [] else [Normal(xs[0], minor)] + NormalAll(xs[1..], minor)
  }

  function NormalCode(c: CodeObj, minor: nat): CodeObj
    decreases c, 1
  {
    CodeObj(NormalCounts(c.counts, minor), c.instructions, NormalAll(c.consts, minor), c.names,
            NormalLocals(c.locals, minor), NormalTrailer(c.trailer, minor))
  }

  function NormalCounts(c: Counts, minor: nat): Counts {
    c.(posonlyargcount := if minor >= 8 then c.posonlyargcount else 0, nlocals := if minor >= 11 then 0 else c.nlocals)
  }

  /** From version 3.11, variables that are also free or cell variables are stored once. */
  function NormalLocals(l: Locals, minor: nat): Locals {
    if minor >= 11 then l.(varnames := Filtered(l.varnames, l.freevars, l.cellvars)) else l
  }

  function NormalTrailer(t: Trailer, minor: nat): Trailer {
    if minor >= 11 then t else t.(qualname := t.name, exceptiontable := [])
  }

  /** Whether some code object in the value has cell variables. */
  predicate HasCells(x: Value)
    decreases x, 1
  {
    match x
    case List(elems) => AnyCells(elems)
    case Tuple(elems) => AnyCells(elems)
    case Code(c) => CodeHasCells(c)
    case _ => false
  }

  predicate AnyCells(xs: seq<Value>)
    decreases xs, 0
  {
    xs != [] && (HasCells(xs[0]) || AnyCells(xs[1..]))
  }

  predicate CodeHasCells(c: CodeObj)
    decreases c, 1
  {
    c.locals.cellvars != [] || AnyCells(c.consts)
  }

  predicate Fits(n: nat) {
    n < U32_SIZE
  }

  predicate AllFit(names: seq<Bytes>) {
    Fits(|names|) && forall s :: s in names ==> Fits(|s|)
  }

  /** Every length fits into 32 bits. */
  predicate Sized(x: Value)
    decreases x, 1
  {
    match x
    case Str(s) => Fits(|s|)
    case List(elems) => Fits(|elems|) && AllSized(elems)
    case Tuple(elems) => Fits(|elems|) && AllSized(elems)
    case Code(c) => CodeSized(c)
    case _ => true
  }

  predicate AllSized(xs: seq<Value>)
    decreases xs, 0
  {
    xs == [] || (Sized(xs[0]) && AllSized(xs[1..]))
  }

  predicate CodeSized(c: CodeObj)
    decreases c, 1
  {
    && Fits(|c.instructions|) && Fits(|c.consts|) && AllSized(c.consts) && AllFit(c.names)
    && LocalsSized(c.locals) && TrailerSized(c.trailer)
  }

  predicate LocalsSized(l: Locals) {
    && AllFit(l.varnames) && AllFit(l.freevars) && AllFit(l.cellvars)
    && Fits(|l.varnames| + |l.freevars| + |l.cellvars|)
  }

  predicate TrailerSized(t: Trailer) {
    Fits(|t.filename|) && Fits(|t.name|) && Fits(|t.qualname|) && Fits(|t.lnotab|) && Fits(|t.exceptiontable|)
  }

  // ---- reading undoes writing, part by part ----

  lemma ReadsU32(n: nat, rest: Bytes)
    ensures ReadU32(ToLe(n, 4) + rest) == Done(n % U32_SIZE, rest)
  {
    hide ToLe, FromLe;
    var v := ToLe(n, 4) + rest;
    assert v[..4] == ToLe(n, 4) && v[4..] == rest;
    U32RoundTrip(n);
  }

  lemma TakesBack(s: Bytes, rest: Bytes)
    ensures Take(s + rest, |s|) == Done(s, rest)
  {
  }

  lemma ReadSizedIs(v: Bytes, n: U32, rest: Bytes)
    requires ReadU32(v) == Done(n, rest)
    ensures ReadSized(v) == Take(rest, n)
  {
  }

  /** The length that is read back is the length modulo 32 bits. */
  lemma ReadsTruncated(s: Bytes, rest: Bytes)
    ensures ReadSized(ToLe(|s|, 4) + s + rest) == Take(s + rest, |s| % U32_SIZE)
  {
    hide ReadU32, ToLe, Take, ReadSized;
    var v := ToLe(|s|, 4) + (s + rest);
    Associate(ToLe(|s|, 4), s, rest);
    ReadsU32(|s|, s + rest);
    ReadSizedIs(v, |s| % U32_SIZE, s + rest);
  }

  lemma FitsExactly(n: nat)
    requires Fits(n)
    ensures n % U32_SIZE == n
  {
  }

  lemma ReadsSized(s: Bytes, rest: Bytes)
    requires Fits(|s|)
    ensures ReadSized(ToLe(|s|, 4) + s + rest) == Done(s, rest)
  {
    hide *;
    FitsExactly(|s|);
    ReadsTruncated(s, rest);
    TakesBack(s, rest);
  }

  /** What is behind the first byte. */
  lemma Behind(b: Byte, x: Bytes, y: Bytes, z: Bytes)
    ensures ([b] + x + y + z)[0] == b && ([b] + x + y + z)[1..] == x + y + z
  {
    assert [b] + x + y + z == [b] + (x + y + z);
  }

  lemma ReadsRaw(s: Bytes, rest: Bytes)
    requires Fits(|s|)
    ensures ReadRaw(RawBytes(s) + rest) == Done(s, rest)
  {
    hide ReadSized, ToLe;
    Behind(0x73, ToLe(|s|, 4), s, rest);
    ReadsSized(s, rest);
  }

  lemma ReadsStrValue(s: Bytes, interned: bool, rest: Bytes, minor: nat)
    requires Fits(|s|)
    ensures ReadValue(StrBytes(s, interned) + rest, minor) == Done(Str(s), rest)
  {
    hide ReadSized, ToLe, ReadCode, ReadValues;
    var v := StrBytes(s, interned) + rest;
    if Ascii(s) && |s| <= 255 {
      assert v[1..][1..] == s + rest;
      TakesBack(s, rest);
    } else {
      Behind(0x75, ToLe(|s|, 4), s, rest);
      ReadsSized(s, rest);
    }
  }

  lemma ReadsStr(s: Bytes, interned: bool, rest: Bytes, minor: nat)
    requires Fits(|s|)
    ensures ReadStr(StrBytes(s, interned) + rest, minor) == Done(s, rest)
  {
    hide StrBytes, ReadValue;
    ReadsStrValue(s, interned, rest, minor);
  }

  /** A tuple header makes the values after it a list. */
  lemma ReadsTuple(n: nat, body: Bytes, minor: nat)
    requires Fits(n)
    ensures ReadValue(TupleHeader(n) + body, minor) ==
              var xs := ReadValues(body, n, minor);
              if xs.Done? then Done(List(xs.value), xs.rest) else if xs.Broken? then Broken else Panicked
  {
    hide ReadValues, ReadU32, ToLe, ReadCode;
    var v := TupleHeader(n) + body;
    if n > 255 {
      assert v[1..] == ToLe(n, 4) + body;
      ReadsU32(n, body);
    } else {
      assert v[1..][1..] == body;
    }
  }

  function AsValues(names: seq<Bytes>): (r: seq<Value>)
    ensures |r| == |names|
  {
    if names == [] then [] else [Str(names[0])] + AsValues(names[1..])
  }

  lemma {:induction false} StringsOfValues(names: seq<Bytes>)
    ensures Strings(AsValues(names)) == Some(names)
  {
    if names != [] {
      StringsOfValues(names[1..]);
      assert AsValues(names)[1..] == AsValues(names[1..]);
      assert [names[0]] + names[1..] == names;
    }
  }

  lemma {:induction false} ReadsNames(names: seq<Bytes>, rest: Bytes, minor: nat)
    requires forall s :: s in names ==> Fits(|s|)
    ensures ReadValues(AllStrBytes(names) + rest, |names|, minor) == Done(AsValues(names), rest)
  {
    hide ReadValue, StrBytes, Fits;
    if names == [] {
      assert [] + rest == rest;
    } else {
      Associate(StrBytes(names[0], true), AllStrBytes(names[1..]), rest);
      ReadsStrValue(names[0], true, AllStrBytes(names[1..]) + rest, minor);
      ReadsNames(names[1..], rest, minor);
    }
  }

  lemma ReadsStrs(names: seq<Bytes>, rest: Bytes, minor: nat)
    requires AllFit(names)
    ensures ReadStrs(StrsBytes(names) + rest, minor) == Done(names, rest)
  {
    hide ReadValue, ReadValues, Strings, AsValues, AllStrBytes, TupleHeader;
    Associate(TupleHeader(|names|), AllStrBytes(names), rest);
    ReadsTuple(|names|, AllStrBytes(names) + rest, minor);
    ReadsNames(names, rest, minor);
    StringsOfValues(names);
  }

  lemma ReadsCounts(c: Counts, rest: Bytes, minor: nat)
    ensures ReadCounts(CountsBytes(c, minor) + rest, minor) == Done(NormalCounts(c, minor), rest)
  {
    hide ReadU32, ToLe;
    var f := ToLe(c.flags, 4) + rest;
    var s := ToLe(c.stacksize, 4) + f;
    var n := (if minor < 11 then ToLe(c.nlocals, 4) else []) + s;
    var k := ToLe(c.kwonlyargcount, 4) + n;
    var p := (if minor >= 8 then ToLe(c.posonlyargcount, 4) else []) + k;
    assert CountsBytes(c, minor) + rest == ToLe(c.argcount, 4) + p;
    ReadsU32(c.argcount, p);
    ReadsU32(c.posonlyargcount, k);
    ReadsU32(c.kwonlyargcount, n);
    ReadsU32(c.nlocals, s);
    ReadsU32(c.stacksize, f);
    ReadsU32(c.flags, rest);
    assert [] + k == k && [] + s == s;
  }

  lemma {:induction false} FilteredFit(names: seq<Bytes>, freevars: seq<Bytes>, cellvars: seq<Bytes>)
    ensures forall s :: s in Filtered(names, freevars, cellvars) ==> s in names
  {
    if names != [] {
      FilteredFit(names[1..], freevars, cellvars);
    }
  }

  /** Cell variables are written with a kind that the reader does not expect. */
  lemma {:induction false} PartitionOf(vars: seq<Bytes>, free: seq<Bytes>, cells: seq<Bytes>)
    ensures Partition(vars + free + cells, Times(0x20, |vars|) + Times(0x80, |free|) + Times(0x60, |cells|)) ==
              if cells == [] then Some(Locals(vars, free, [])) else None
    decreases |vars| + |free|
  {
    var names, kinds := vars + free + cells, Times(0x20, |vars|) + Times(0x80, |free|) + Times(0x60, |cells|);
    if vars != [] {
      assert names[1..] == vars[1..] + free + cells;
      assert kinds[1..] == Times(0x20, |vars[1..]|) + Times(0x80, |free|) + Times(0x60, |cells|);
      PartitionOf(vars[1..], free, cells);
      assert [vars[0]] + vars[1..] == vars;
    } else if free != [] {
      assert names[1..] == vars + free[1..] + cells;
      assert kinds[1..] == Times(0x20, |vars|) + Times(0x80, |free[1..]|) + Times(0x60, |cells|);
      PartitionOf(vars, free[1..], cells);
      assert [free[0]] + free[1..] == free;
    }
  }

  lemma ReadsLocals(l: Locals, rest: Bytes, minor: nat)
    requires LocalsSized(l)
    ensures ReadLocals(LocalsBytes(l, minor) + rest, minor) ==
              if minor >= 11 && l.cellvars != [] then Panicked else Done(NormalLocals(l, minor), rest)
  {
    hide ReadStrs, ReadRaw, StrsBytes, RawBytes, Partition, Filtered, Times;
    if minor >= 11 {
      var vars := Filtered(l.varnames, l.freevars, l.cellvars);
      FilteredFit(l.varnames, l.freevars, l.cellvars);
      Associate(StrsBytes(Slots(l)), RawBytes(Kinds(l)), rest);
      ReadsStrs(Slots(l), RawBytes(Kinds(l)) + rest, minor);
      ReadsRaw(Kinds(l), rest);
      PartitionOf(vars, l.freevars, l.cellvars);
    } else {
      var c := StrsBytes(l.cellvars) + rest;
      assert LocalsBytes(l, minor) + rest == StrsBytes(l.varnames) + (StrsBytes(l.freevars) + c);
      ReadsStrs(l.varnames, StrsBytes(l.freevars) + c, minor);
      ReadsStrs(l.freevars, c, minor);
      ReadsStrs(l.cellvars, rest, minor);
    }
  }

  lemma ReadsTrailer(t: Trailer, rest: Bytes, minor: nat)
    requires TrailerSized(t)
    ensures ReadTrailer(TrailerBytes(t, minor) + rest, minor) == Done(NormalTrailer(t, minor), rest)
  {
    hide ReadStr, ReadRaw, ReadU32, StrBytes, RawBytes, ToLe;
    var e := (if minor >= 11 then RawBytes(t.exceptiontable) else []) + rest;
    var l := RawBytes(t.lnotab) + e;
    var f := ToLe(t.firstlineno, 4) + l;
    var q := (if minor >= 11 then StrBytes(t.qualname, true) else []) + f;
    var n := StrBytes(t.name, true) + q;
    assert TrailerBytes(t, minor) + rest == StrBytes(t.filename, false) + n;
    ReadsStr(t.filename, false, n, minor);
    ReadsStr(t.name, true, q, minor);
    ReadsStr(t.qualname, true, f, minor);
    ReadsU32(t.firstlineno, l);
    ReadsRaw(t.lnotab, e);
    ReadsRaw(t.exceptiontable, rest);
    assert [] + f == f && [] + rest == rest;
  }

  // ---- reading undoes writing ----

  /**
   Reading a written value gives its normal form and the bytes after it, for every nesting of constants and code,
   but for code with cell variables from version 3.11 on, where it panics.
   */
  lemma {:induction false} ReadsBack(x: Value, rest: Bytes, minor: nat)
    requires Sized(x)
    ensures ReadValue(ValueBytes(x, minor) + rest, minor) ==
              if minor >= 11 && HasCells(x) then Panicked else Done(Normal(x, minor), rest)
    decreases x, 1
  {
    hide ReadValue, StrBytes, ReadValues, ReadCode, AllBytes, CodeBytes, TupleHeader, ToLe;
    match x
    case Str(s) => ReadsStrValue(s, false, rest, minor);
    case List(elems) =>
      ReadsAll(elems, rest, minor);
      Associate(TupleHeader(|elems|), AllBytes(elems, minor), rest);
      ReadsTuple(|elems|, AllBytes(elems, minor) + rest, minor);
    case Tuple(elems) =>
      ReadsAll(elems, rest, minor);
      Associate(TupleHeader(|elems|), AllBytes(elems, minor), rest);
      ReadsTuple(|elems|, AllBytes(elems, minor) + rest, minor);
    case Code(c) =>
      ReadsCode(c, rest, minor);
      Associate([0xE3], CodeBytes(c, minor), rest);
      ReadsCodeValue(CodeBytes(c, minor) + rest, minor);
    case _ => ReadsNumber(x, rest, minor);
  }

  lemma ReadsCodeValue(body: Bytes, minor: nat)
    ensures ReadValue([0xE3] + body, minor) ==
              var c := ReadCode(body, minor);
              if c.Done? then Done(Code(c.value), c.rest) else if c.Broken? then Broken else Panicked
  {
  }

  lemma ReadsNumber(x: Value, rest: Bytes, minor: nat)
    requires x.Int? || x.Nat? || x.Float? || x.Bool? || x.NoneValue?
    ensures ReadValue(ValueBytes(x, minor) + rest, minor) == Done(Normal(x, minor), rest)
  {
    hide ReadCode, ReadValues, ReadU32, ToLe, FromLe, ReadSized;
    var v := ValueBytes(x, minor) + rest;
    match x
    case Int(i) =>
      assert v[1..] == ToLe(i % U32_SIZE, 4) + rest;
      ReadsU32(i % U32_SIZE, rest);
    case Nat(n) =>
      assert v[1..] == ToLe(n, 4) + rest;
      ReadsU32(n, rest);
    case Float(bits) =>
      assert v[1..] == ToLe(bits, 8) + rest;
      assert v[1..][..8] == ToLe(bits, 8) && v[1..][8..] == rest;
      U64RoundTrip(bits);
    case Bool(b) => assert v[1..] == rest;
    case NoneValue => assert v[1..] == rest;
  }

  lemma {:induction false} ReadsAll(xs: seq<Value>, rest: Bytes, minor: nat)
    requires AllSized(xs)
    ensures ReadValues(AllBytes(xs, minor) + rest, |xs|, minor) ==
              if minor >= 11 && AnyCells(xs) then Panicked else Done(NormalAll(xs, minor), rest)
    decreases xs, 0
  {
    hide ReadValue, ValueBytes, Normal, HasCells, Sized;
    if xs == [] {
      assert [] + rest == rest;
    } else {
      Associate(ValueBytes(xs[0], minor), AllBytes(xs[1..], minor), rest);
      ReadsBack(xs[0], AllBytes(xs[1..], minor) + rest, minor);
      ReadsAll(xs[1..], rest, minor);
    }
  }

  lemma {:induction false} ReadsCode(c: CodeObj, rest: Bytes, minor: nat)
    requires CodeSized(c)
    ensures ReadCode(CodeBytes(c, minor) + rest, minor) ==
              if minor >= 11 && CodeHasCells(c) then Panicked else Done(NormalCode(c, minor), rest)
    decreases c, 1
  {
    hide ReadCounts, ReadRaw, ReadValue, ReadValues, ReadStrs, ReadLocals, ReadTrailer;
    hide CountsBytes, RawBytes, StrsBytes, LocalsBytes, TrailerBytes, AllBytes, TupleHeader, NormalAll, LocalsSized, AnyCells;
    hide NormalCounts, NormalLocals, NormalTrailer, AllSized, TrailerSized;
    var t := TrailerBytes(c.trailer, minor) + rest;
    var l := LocalsBytes(c.locals, minor) + t;
    var n := StrsBytes(c.names) + l;
    var k := AllBytes(c.consts, minor) + n;
    var h := TupleHeader(|c.consts|) + k;
    var i := RawBytes(c.instructions) + h;
    assert CodeBytes(c, minor) + rest == CountsBytes(c.counts, minor) + i;
    ReadsCounts(c.counts, i, minor);
    ReadsRaw(c.instructions, h);
    ReadsAll(c.consts, n, minor);
    ReadsTuple(|c.consts|, k, minor);
    ReadsStrs(c.names, l, minor);
    ReadsLocals(c.locals, t, minor);
    ReadsTrailer(c.trailer, rest, minor);
  }

  /** A string comes back exactly if its length fits into 32 bits. */
  lemma StrReadsBackIff(s: Bytes, interned: bool, rest: Bytes, minor: nat)
    ensures ReadValue(StrBytes(s, interned) + rest, minor) == Done(Str(s), rest) <==> Fits(|s|)
  {
    if Fits(|s|) {
      ReadsStrValue(s, interned, rest, minor);
    } else {
      hide ToLe, ReadCode, ReadValues, ReadSized, Ascii;
      Behind(0x75, ToLe(|s|, 4), s, rest);
      ReadsTruncated(s, rest);
    }
  }

  /** No written string begins another: from bytes that agree, the strings and what follows them agree. */
  lemma StrPrefixFree(s: Bytes, a: bool, t: Bytes, b: bool, rest: Bytes, rest': Bytes)
    requires Fits(|s|) && Fits(|t|) && StrBytes(s, a) + rest == StrBytes(t, b) + rest'
    ensures s == t && rest == rest'
  {
    hide StrBytes, ReadValue;
    ReadsStrValue(s, a, rest, 0);
    ReadsStrValue(t, b, rest', 0);
  }

  /** The same for lists of names, across both widths of the count and of the lengths. */
  lemma StrsPrefixFree(names: seq<Bytes>, names': seq<Bytes>, rest: Bytes, rest': Bytes)
    requires AllFit(names) && AllFit(names') && StrsBytes(names) + rest == StrsBytes(names') + rest'
    ensures names == names' && rest == rest'
  {
    hide StrsBytes, ReadStrs;
    ReadsStrs(names, rest, 0);
    ReadsStrs(names', rest', 0);
  }

  // ---- whole files ----

  datatype PythonVersion = PythonVersion(major: nat, minor: nat, micro: nat)

  /** The version of a magic number; other numbers are a panic. */
  function VersionOf(magic: nat): Option<PythonVersion> {
    if 3360 <= magic <= 3379 then Some(PythonVersion(3, 6, 0))
    else if 3390 <= magic <= 3394 then Some(PythonVersion(3, 7, 0))
    else if 3400 <= magic <= 3413 then Some(PythonVersion(3, 8, 0))
    else if 3420 <= magic <= 3425 then Some(PythonVersion(3, 9, 0))
    else if 3430 <= magic <= 3439 then Some(PythonVersion(3, 10, 0))
    else if magic == 3495 then Some(PythonVersion(3, 11, 0))
    else if magic == 3531 then Some(PythonVersion(3, 12, 0))
    else None
  }

  /** The number with the bits of 0x0A0D_0000 set: those of the upper half, since the lower half of the prefix is zero. */
  function WithPrefix(ver: U32): (r: U32) {
    ver % 0x1_0000 + 0x1_0000 * (((ver / 0x1_0000) as bv16 | 0x0A0D) as int)
  }

  function MagicNumBytes(ver: U32): Bytes {
    ToLe(WithPrefix(ver), 4)
  }

  /** The two bytes of a version number, and then the two bytes of a prefix that every such file has. */
  lemma MagicNumIs(ver: U32)
    requires ver < 0x1_0000
    ensures MagicNumBytes(ver) == [ver % 256, ver / 256, 0x0D, 0x0A]
  {
    var r := WithPrefix(ver);
    assert r == ver + 0x1_0000 * 0x0A0D;
    FourLe(r, ver % 256, ver / 256, 0x0D, 0x0A);
  }

  lemma FourLe(n: U32, a: Byte, b: Byte, c: Byte, d: Byte)
    requires n == a + 256 * (b + 256 * (c + 256 * d))
    ensures ToLe(n, 4) == [a, b, c, d]
  {
    var (n1, n2) := (b + 256 * (c + 256 * d), c + 256 * d);
    assert n % 256 == a && n / 256 == n1 && n1 % 256 == b && n1 / 256 == n2 && n2 % 256 == c && n2 / 256 == d;
    assert ToLe(d, 1) == [d];
    assert ToLe(n2, 2) == [c] + ToLe(d, 1);
    assert ToLe(n1, 3) == [b] + ToLe(n2, 2);
  }

  /** Only the lower two bytes are read. */
  function MagicNumFromBytes(bytes: Bytes): nat
    requires |bytes| == 4
  {
    FromLe([bytes[0], bytes[1], 0, 0])
  }

  lemma TwoBytes(a: Byte, b: Byte)
    ensures FromLe([a, b, 0, 0]) == a + 256 * b
  {
    assert FromLe([0, 0]) == 0 by {
      assert [0, 0][1..] == [0] && [0][1..] == [];
    }
    assert [a, b, 0, 0][1..] == [b, 0, 0] && [b, 0, 0][1..] == [0, 0];
  }

  lemma LowBytes(n: U32)
    ensures MagicNumFromBytes(ToLe(n, 4)) == n % 0x1_0000
  {
    TwoBytes(n % 256, n / 256 % 256);
    assert ToLe(n, 4)[1] == ToLe(n / 256, 3)[0];
  }

  lemma PrefixIsHigh(ver: U32)
    ensures WithPrefix(ver) % 0x1_0000 == ver % 0x1_0000
  {
  }

  /** Exactly the version numbers of two bytes come back. */
  lemma MagicRoundTripIff(ver: U32)
    ensures MagicNumFromBytes(MagicNumBytes(ver)) == ver <==> ver < 0x1_0000
  {
    hide FromLe, ToLe, WithPrefix;
    PrefixIsHigh(ver);
    LowBytes(WithPrefix(ver));
  }

  /** A byte code file; there is none for an unknown magic number. */
  function PycBytes(c: CodeObj, magic: U32, timestamp: U32): Option<Bytes> {
    var version := VersionOf(magic);
    if version.None? then None
    else
      Some(MagicNumBytes(magic) + ([0, 0, 0, 0] + (ToLe(timestamp, 4) + ([0, 0, 0, 0] + ([0xE3] + CodeBytes(c, version.value.minor))))))
  }

  /** A file begins with its magic number, the time it was written, and the letter of a code object, with empty words in between. */
  lemma PycLayout(c: CodeObj, magic: U32, timestamp: U32)
    requires VersionOf(magic).Some?
    ensures var v := PycBytes(c, magic, timestamp).value;
            && |v| > 16 && v[..4] == MagicNumBytes(magic) && WordAt(v, 1) == 0 && WordAt(v, 2) == timestamp && WordAt(v, 3) == 0
            && v[16] == 'c' as int + 0x80
  {
    hide ToLe, FromLe, WordAt, CodeBytes, WithPrefix;
    var code := [0xE3] + CodeBytes(c, VersionOf(magic).value.minor);
    ZeroWord();
    WordsOf(0, code);
    WordsOf(timestamp, ToLe(0, 4) + code);
    WordsOf(0, ToLe(timestamp, 4) + (ToLe(0, 4) + code));
    WordsOf(WithPrefix(magic), ToLe(0, 4) + (ToLe(timestamp, 4) + (ToLe(0, 4) + code)));
    assert WordAt(ToLe(0, 4) + (ToLe(timestamp, 4) + (ToLe(0, 4) + code)), 2) == 0;
  }

  lemma ZeroWord()
    ensures ToLe(0, 4) == [0, 0, 0, 0]
  {
  }

  function FromPyc(v: Bytes): Parsed<(CodeObj, PythonVersion)> {
    var magic :- Take(v, 4);
    var version := VersionOf(MagicNumFromBytes(magic.0));
    if version.None? then Panicked
    else
      var padding :- ReadU32(magic.1);
      var timestamp :- ReadU32(padding.1);
      var padding' :- ReadU32(timestamp.1);
      if padding'.1 == [] || padding'.1[0] != 0xE3 then Panicked
      else
        var c :- ReadCode(padding'.1[1..], version.value.minor);
        Done((c.0, version.value), c.1)
  }

  lemma ReadsPadding(rest: Bytes)
    ensures ReadU32([0, 0, 0, 0] + rest) == Done(0, rest)
  {
    hide FromLe;
    assert ToLe(0, 4) == [0, 0, 0, 0];
    ReadsU32(0, rest);
  }

  /** A file that was written is read with the version it was written for, exactly if it is not for 3.11 or later with cells. */
  lemma PycRoundTrip(c: CodeObj, magic: U32, timestamp: U32)
    requires CodeSized(c) && VersionOf(magic).Some?
    ensures var version := VersionOf(magic).value;
            FromPyc(PycBytes(c, magic, timestamp).value) ==
              if version.minor >= 11 && CodeHasCells(c) then Panicked else Done((NormalCode(c, version.minor), version), [])
  {
    hide ReadU32, ReadCode, CodeBytes, NormalCode, CodeHasCells, CodeSized, ToLe, MagicNumBytes, MagicNumFromBytes;
    var version := VersionOf(magic).value;
    var code := [0xE3] + CodeBytes(c, version.minor);
    var p := [0, 0, 0, 0] + code;
    var s := ToLe(timestamp, 4) + p;
    var q := [0, 0, 0, 0] + s;
    var v := PycBytes(c, magic, timestamp).value;
    MagicHasFourBytes(magic);
    assert v[..4] == MagicNumBytes(magic) && v[4..] == q;
    MagicRoundTripIff(magic);
    ReadsPadding(s);
    ReadsU32(timestamp, p);
    ReadsPadding(code);
    assert code[1..] == CodeBytes(c, version.minor) + [];
    ReadsCode(c, [], version.minor);
  }

  lemma MagicHasFourBytes(magic: U32)
    ensures |MagicNumBytes(magic)| == 4
  {
  }
}
