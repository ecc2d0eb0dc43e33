/**
 Quick checks: the difference between two versions of a module is one edit of its list of chunks,
 and the edit is applied to the syntax tree and, lowered, to the typed tree.
 */
module ChunkDiff {
  import opened Wrappers

  datatype Diff<T> = Deletion(index: nat) | Addition(index: nat, chunk: T) | Modification(index: nat, chunk: T) | Nop

  /** The first place where the shorter list and the other differ. */
  function FirstMismatch<T(==)>(a: seq<T>, b: seq<T>, from: nat): (r: Option<nat>)
    requires from <= |a| && from <= |b| && a[..from] == b[..from]
    ensures r.Some? ==> r.value < |a| && r.value < |b| && a[r.value] != b[r.value] && a[..r.value] == b[..r.value]
    ensures r.None? ==> a <= b || b <= a
    decreases |a| - from
  {
    if from == |a| || from == |b| then None
    else if a[from] != b[from] then Some(from)
    else
      assert a[..from + 1] == a[..from] + [a[from]] && b[..from + 1] == b[..from] + [b[from]];
      FirstMismatch(a, b, from + 1)
  }

  /** The edit that a quick check makes; without a mismatch, it is at the end of the longer list. */
  function DiffOf<T(==)>(old_: seq<T>, new_: seq<T>): Diff<T> {
    var first := FirstMismatch(old_, new_, 0);
    if |old_| < |new_| then
      var i := if first.Some? then first.value else |new_| - 1;
      Addition(i, new_[i])
    else if |old_| > |new_| then
      Deletion(if first.Some? then first.value else |old_| - 1)
    else if first.Some? then Modification(first.value, new_[first.value])
    else Nop
  }

  function Edited<T>(s: seq<T>, d: Diff<T>): seq<T> {
    match d
    case Addition(i, chunk) => if i > |s| then s + [chunk] else s[..i] + [chunk] + s[i..]
    case Deletion(i) => if i < |s| then s[..i] + s[i + 1..] else s
    case Modification(i, chunk) => if i < |s| then s[i := chunk] else s
    case Nop => s
  }

  class Chunks<T> {
    var chunks: seq<T>

    constructor (chunks: seq<T>)
      ensures this.chunks == chunks
    {
      this.chunks := chunks;
    }

    /** Applies an edit in place; an index that is out of range changes nothing, or adds at the end. */
    method Update(d: Diff<T>)
      modifies this
      ensures chunks == Edited(old(chunks), d)
    {
      match d
      case Addition(i, chunk) =>
        if i > |chunks| {
          chunks := chunks + [chunk];
        } else {
          chunks := chunks[..i] + [chunk] + chunks[i..];
        }
      case Deletion(i) =>
        if i < |chunks| {
          chunks := chunks[..i] + chunks[i + 1..];
        }
      case Modification(i, chunk) =>
        if i < |chunks| {
          chunks := chunks[i := chunk];
        }
      case Nop =>
    }
  }

  lemma {:induction false} MismatchFound<T>(a: seq<T>, b: seq<T>, i: nat, from: nat)
    requires from <= i < |a| && i < |b| && a[..i] == b[..i] && a[i] != b[i] && a[..from] == b[..from]
    ensures FirstMismatch(a, b, from) == Some(i)
    decreases i - from
  {
    if from < i {
      assert a[..i][from] == b[..i][from];
      assert a[..from + 1] == a[..i][..from + 1] && b[..from + 1] == b[..i][..from + 1];
      MismatchFound(a, b, i, from + 1);
    }
  }

  /** With a mismatch at `i`, the edit makes the lists agree up to there, and further by the chunk it takes over. */
  lemma EditAtMismatch<T>(a: seq<T>, b: seq<T>, i: nat)
    requires i < |a| && i < |b| && a[..i] == b[..i] && a[i] != b[i]
    ensures |a| < |b| ==> Edited(a, DiffOf(a, b)) == b[..i + 1] + a[i..]
    ensures |a| == |b| ==> Edited(a, DiffOf(a, b)) == b[..i + 1] + a[i + 1..]
    ensures |a| > |b| ==> Edited(a, DiffOf(a, b)) == b[..i] + a[i + 1..]
  {
    MismatchFound(a, b, i, 0);
    assert b[..i + 1] == b[..i] + [b[i]];
  }

  /** If one list begins the other, the last chunk of the new one is added at the end, or the last of the old one goes. */
  lemma EditWithoutMismatch<T>(a: seq<T>, b: seq<T>)
    requires a <= b || b <= a
    ensures |a| < |b| ==> Edited(a, DiffOf(a, b)) == a + [b[|b| - 1]]
    ensures |a| > |b| ==> Edited(a, DiffOf(a, b)) == a[..|a| - 1]
    ensures |a| == |b| ==> DiffOf(a, b) == Nop
  {
    var first := FirstMismatch(a, b, 0);
    assert first.None?;
    if |a| < |b| {
      assert |b| - 1 == |a| ==> a[..|a|] + [b[|a|]] + a[|a|..] == a + [b[|a|]];
    } else if |a| > |b| {
      assert a[|a|..] == [];
    }
  }

  // ---- one edit is found if one is enough ----

  ghost predicate OneEdit<T(!new)>(old_: seq<T>, new_: seq<T>) {
    exists d :: Edited(old_, d) == new_
  }

  /** However repeated the chunks are, the edit leads to the new version exactly if some single edit does. */
  lemma OneEditIff<T(!new)>(old_: seq<T>, new_: seq<T>)
    ensures Edited(old_, DiffOf(old_, new_)) == new_ <==> OneEdit(old_, new_)
  {
    if d :| Edited(old_, d) == new_ {
      if |old_| < |new_| {
        AdditionFound(old_, new_, if d.index > |old_| then |old_| else d.index);
      } else if |old_| > |new_| {
        DeletionFound(old_, new_, d.index);
      } else {
        SameLengthFound(old_, new_, if d.Modification? then d.index else 0);
      }
    }
  }

  lemma AdditionFound<T>(old_: seq<T>, new_: seq<T>, k: nat)
    requires |new_| == |old_| + 1 && k <= |old_| && old_[..k] == new_[..k] && old_[k..] == new_[k + 1..]
    ensures Edited(old_, DiffOf(old_, new_)) == new_
  {
  }

  lemma DeletionFound<T>(old_: seq<T>, new_: seq<T>, k: nat)
    requires |old_| == |new_| + 1 && k <= |new_| && old_[..k] == new_[..k] && old_[k + 1..] == new_[k..]
    ensures Edited(old_, DiffOf(old_, new_)) == new_
  {
  }

  lemma SameLengthFound<T>(old_: seq<T>, new_: seq<T>, k: nat)
    requires |old_| == |new_| && (forall i :: 0 <= i < |old_| && i != k ==> old_[i] == new_[i])
    ensures Edited(old_, DiffOf(old_, new_)) == new_
  {
  }

  // ---- repeated edits reach the new version ----

  function Mismatches<T(==)>(a: seq<T>, b: seq<T>): (n: nat)
    requires |a| == |b|
    ensures n <= |a| && (n == 0 <==> a == b)
  {
    if a == [] then 0 else (if a[0] == b[0] then 0 else 1) + Mismatches(a[1..], b[1..])
  }

  /** How far a version is from another: chunks too many or too few, then chunks that differ. */
  function Distance<T(==)>(a: seq<T>, b: seq<T>): nat {
    if |a| == |b| then Mismatches(a, b) else |b| + if |a| < |b| then |b| - |a| else |a| - |b|
  }

  lemma {:induction false} OneMismatchLess<T>(a: seq<T>, b: seq<T>, i: nat)
    requires |a| == |b| && i < |a| && a[i] != b[i]
    ensures Mismatches(a[i := b[i]], b) == Mismatches(a, b) - 1
  {
    if i == 0 {
      assert a[0 := b[0]][1..] == a[1..];
    } else {
      assert a[i := b[i]][1..] == a[1..][i - 1 := b[1..][i - 1]];
      OneMismatchLess(a[1..], b[1..], i - 1);
    }
  }

  lemma EditGetsCloser<T>(a: seq<T>, b: seq<T>)
    requires a != b
    ensures Distance(Edited(a, DiffOf(a, b)), b) < Distance(a, b)
  {
    if |a| == |b| {
      OneMismatchLess(a, b, DiffOf(a, b).index);
    }
  }

  function Repeated<T(==)>(a: seq<T>, b: seq<T>, steps: nat): seq<T>
    decreases steps
  {
    if steps == 0 then a else Repeated(Edited(a, DiffOf(a, b)), b, steps - 1)
  }

  lemma {:induction false} Converges<T>(a: seq<T>, b: seq<T>, steps: nat)
    requires Distance(a, b) <= steps
    ensures Repeated(a, b, steps) == b
    decreases steps
  {
    if steps > 0 {
      if a == b {
        Converges(a, b, steps - 1);
      } else {
        EditGetsCloser(a, b);
        Converges(Edited(a, DiffOf(a, b)), b, steps - 1);
      }
    }
  }

  /** From any version, repeated quick checks reach the new one, with as many edits as chunks it has and the lengths differ by. */
  lemma ReachesNewVersion<T>(a: seq<T>, b: seq<T>, steps: nat)
    requires steps >= |b| + (if |a| < |b| then |b| - |a| else |a| - |b|)
    ensures Repeated(a, b, steps) == b && DiffOf(b, b) == Nop
    ensures DiffOf(a, b) == Nop <==> a == b
  {
    Converges(a, b, steps);
  }

  // ---- the typed tree ----

  /**
   A lowerer in the course of one quick check, and what `fix` asks about chunks. Its state changes with every chunk:
   `lower(0, chunk)` is what the edited chunk is lowered to, and `lower(i + 1, chunk)` the one that `fix` lowers at `i`.
   */
  datatype Lowerer<!A, !H> = Lowerer(
    lower: (nat, A) -> Option<H>, name: A -> Option<string>, loweredName: H -> Option<string>, failed: H -> bool)

  /** The edit of the typed tree; there is none if the chunk cannot be lowered at all. */
  function LoweredDiff<A, H>(lowerer: Lowerer<A, H>, d: Diff<A>): Option<Diff<H>> {
    match d
    case Deletion(i) => Some(Deletion(i))
    case Addition(i, chunk) =>
      var h := lowerer.lower(0, chunk);
      if h.Some? then Some(Addition(i, h.value)) else None
    case Modification(i, chunk) =>
      var h := lowerer.lower(0, chunk);
      if h.Some? then Some(Modification(i, h.value)) else None
    case Nop => Some(Nop)
  }

  /** Chunks that `fix` lowers again: those with a failure in their type, if the new chunk at their place has the same name. */
  predicate Refixed<A, H>(lowerer: Lowerer<A, H>, new_: seq<A>, hir: seq<H>, i: nat)
    requires i < |hir|
  {
    i < |new_| && lowerer.name(new_[i]) == lowerer.loweredName(hir[i]) && lowerer.failed(hir[i]) && lowerer.lower(i + 1, new_[i]).Some?
  }

  function Fixed<A, H>(lowerer: Lowerer<A, H>, new_: seq<A>, hir: seq<H>): seq<H> {
    seq(|hir|, i requires 0 <= i < |hir| =>
      if Refixed(lowerer, new_, hir, i) then lowerer.lower(i + 1, new_[i]).value else hir[i])
  }

  datatype Trees<A, H> = Trees(ast: seq<A>, hir: seq<H>)

  /** A quick check: both trees are edited or none is, and then the typed tree is fixed. */
  function QuickChecked<A(==), H>(t: Trees<A, H>, new_: seq<A>, lowerer: Lowerer<A, H>): Trees<A, H> {
    var d := DiffOf(t.ast, new_);
    if d.Nop? then t
    else
      var h := LoweredDiff(lowerer, d);
      var (ast, hir) := if h.Some? then (Edited(t.ast, d), Edited(t.hir, h.value)) else (t.ast, t.hir);
      Trees(ast, Fixed(lowerer, new_, hir))
  }

  /** How many of the first `n` chunks are lowered again. */
  function Refixes<A, H>(lowerer: Lowerer<A, H>, new_: seq<A>, hir: seq<H>, n: nat): nat
    requires n <= |hir|
  {
    if n == 0 then 0 else Refixes(lowerer, new_, hir, n - 1) + (if Refixed(lowerer, new_, hir, n - 1) then 1 else 0)
  }

  lemma {:induction false} NoMoreRefixes<A, H>(lowerer: Lowerer<A, H>, new_: seq<A>, hir: seq<H>, m: nat, n: nat)
    requires m <= n <= |hir| && (m < n ==> |new_| <= m)
    ensures Refixes(lowerer, new_, hir, m) == Refixes(lowerer, new_, hir, n)
  {
    if m < n {
      NoMoreRefixes(lowerer, new_, hir, m, n - 1);
    }
  }

  /** Lowers failed chunks again, in place; the number of chunks replaced is returned. */
  method Fix<A, H>(new_: seq<A>, hir: Chunks<H>, lowerer: Lowerer<A, H>) returns (fixed: nat)
    modifies hir
    ensures hir.chunks == Fixed(lowerer, new_, old(hir.chunks))
    ensures fixed == Refixes(lowerer, new_, old(hir.chunks), |old(hir.chunks)|)
    ensures |hir.chunks| == |old(hir.chunks)|
    ensures forall i :: 0 <= i < |hir.chunks| ==>
      hir.chunks[i] ==
        var before := old(hir.chunks)[i];
        if i < |new_| && lowerer.failed(before) && lowerer.name(new_[i]) == lowerer.loweredName(before)
        then if lowerer.lower(i + 1, new_[i]).Some? then lowerer.lower(i + 1, new_[i]).value else before
        else before
  {
    ghost var before := hir.chunks;
    fixed := 0;
    var n := if |new_| < |hir.chunks| then |new_| else |hir.chunks|;
    for i := 0 to n
      invariant |hir.chunks| == |before|
      invariant forall j :: 0 <= j < i ==> hir.chunks[j] == Fixed(lowerer, new_, before)[j]
      invariant forall j :: i <= j < |before| ==> hir.chunks[j] == before[j]
      invariant fixed == Refixes(lowerer, new_, before, i)
    {
      var chunk := hir.chunks[i];
      if lowerer.name(new_[i]) != lowerer.loweredName(chunk) {
        continue;
      }
      if lowerer.failed(chunk) {
        var h := lowerer.lower(i + 1, new_[i]);
        if h.Some? {
          hir.chunks := hir.chunks[i := h.value];
          fixed := fixed + 1;
        }
      }
    }
    NoMoreRefixes(lowerer, new_, before, n, |before|);
  }

  method QuickCheck<A(==), H>(ast: Chunks<A>, hir: Chunks<H>, new_: seq<A>, lowerer: Lowerer<A, H>)
    requires {ast as object} !! {hir as object}
    modifies ast, hir
    ensures Trees(ast.chunks, hir.chunks) == QuickChecked(Trees(old(ast.chunks), old(hir.chunks)), new_, lowerer)
  {
    var diff := DiffOf(ast.chunks, new_);
    if diff.Nop? {
      return;
    }
    var hirDiff := LoweredDiff(lowerer, diff);
    if hirDiff.Some? {
      hir.Update(hirDiff.value);
      ast.Update(diff);
    }
    var _ := Fix(new_, hir, lowerer);
  }

  // ---- the two trees stay aligned ----

  /** Every typed chunk is a lowering of the chunk in its place. What a chunk may be lowered to depends on the lowerer's state. */
  ghost predicate Aligned<A(!new), H(!new)>(lowering: (A, H) -> bool, t: Trees<A, H>) {
    |t.ast| == |t.hir| && forall i :: 0 <= i < |t.ast| ==> lowering(t.ast[i], t.hir[i])
  }

  ghost predicate Lowers<A(!new), H(!new)>(lowering: (A, H) -> bool, lowerer: Lowerer<A, H>) {
    forall k: nat, a: A :: lowerer.lower(k, a).Some? ==> lowering(a, lowerer.lower(k, a).value)
  }

  /** Editing with a lowered edit is lowering of what is edited. */
  lemma EditKeepsAligned<A(!new), H(!new)>(lowering: (A, H) -> bool, lowerer: Lowerer<A, H>, t: Trees<A, H>, d: Diff<A>)
    requires Aligned(lowering, t) && Lowers(lowering, lowerer) && LoweredDiff(lowerer, d).Some?
    ensures Aligned(lowering, Trees(Edited(t.ast, d), Edited(t.hir, LoweredDiff(lowerer, d).value)))
  {
    hide Edited, DiffOf;
    var (e, f) := (d, LoweredDiff(lowerer, d).value);
    var (ast, hir) := (Edited(t.ast, e), Edited(t.hir, f));
    EditedLength(t.ast, e);
    EditedLength(t.hir, f);
    forall j | 0 <= j < |ast|
      ensures lowering(ast[j], hir[j])
    {
      EditedAt(t.ast, e, j);
      EditedAt(t.hir, f, j);
    }
  }

  lemma EditedLength<T>(s: seq<T>, d: Diff<T>)
    ensures |Edited(s, d)| == if d.Addition? then |s| + 1 else if d.Deletion? && d.index < |s| then |s| - 1 else |s|
  {
  }

  /** What is where after an edit. */
  lemma EditedAt<T>(s: seq<T>, d: Diff<T>, j: nat)
    requires j < |Edited(s, d)|
    ensures d.Nop? ==> Edited(s, d) == s
    ensures d.Modification? ==> |Edited(s, d)| == |s| && Edited(s, d)[j] == if j == d.index then d.chunk else s[j]
    ensures d.Deletion? ==> j + (if d.index <= j then 1 else 0) < |s| && Edited(s, d)[j] == s[j + if d.index <= j then 1 else 0]
    ensures d.Addition? ==>
              var at := if d.index > |s| then |s| else d.index;
              j <= |s| && Edited(s, d)[j] == if j < at then s[j] else if j == at then d.chunk else s[j - 1]
  {
  }

  /** Fixing takes chunks of the new version, so it keeps the alignment exactly if they are those of the edited tree. */
  lemma FixKeepsAlignedIff<A(!new), H(!new)>(lowering: (A, H) -> bool, lowerer: Lowerer<A, H>, t: Trees<A, H>, new_: seq<A>)
    requires Aligned(lowering, t) && Lowers(lowering, lowerer)
    requires forall a, b, h :: lowering(a, h) && lowering(b, h) ==> a == b
    ensures Aligned(lowering, Trees(t.ast, Fixed(lowerer, new_, t.hir))) <==>
              forall i :: 0 <= i < |t.hir| && Refixed(lowerer, new_, t.hir, i) ==> new_[i] == t.ast[i]
  {
  }

  /** Two edits away, with a failed chunk of the same name in place: the typed tree gets a chunk the syntax tree does not have. */
  lemma FixBreaksAlignment<A(!new), H(!new)>(lowering: (A, H) -> bool, lowerer: Lowerer<A, H>, a: A, b: A, c: A, h: H)
    requires Lowers(lowering, lowerer) && (forall x, y, z :: lowering(x, z) && lowering(y, z) ==> x == y)
    requires a != b && a != c && lowering(a, h) && lowerer.failed(h) && lowerer.name(b) == lowerer.loweredName(h)
    requires lowerer.lower(2, b).Some? && lowerer.lower(0, c).Some?
    ensures Aligned(lowering, Trees([a, a], [h, h]))
    ensures !Aligned(lowering, QuickChecked(Trees([a, a], [h, h]), [c, b], lowerer))
  {
    var t := Trees([a, a], [h, h]);
    var d := DiffOf([a, a], [c, b]);
    assert d == Modification(0, c) by {
      assert [a, a][0] != [c, b][0];
    }
    var edited := Trees(Edited(t.ast, d), Edited(t.hir, LoweredDiff(lowerer, d).value));
    EditKeepsAligned(lowering, lowerer, t, d);
    assert Refixed(lowerer, [c, b], edited.hir, 1) && edited.ast[1] == a;
    FixKeepsAlignedIff(lowering, lowerer, edited, [c, b]);
  }

  /** Fixing with the chunks of the edited tree itself always keeps the alignment. */
  lemma FixFromOwnTree<A(!new), H(!new)>(lowering: (A, H) -> bool, lowerer: Lowerer<A, H>, t: Trees<A, H>)
    requires Aligned(lowering, t) && Lowers(lowering, lowerer)
    ensures Aligned(lowering, Trees(t.ast, Fixed(lowerer, t.ast, t.hir)))
  {
    forall i | 0 <= i < |t.ast|
      ensures lowering(t.ast[i], Fixed(lowerer, t.ast, t.hir)[i])
    {
      if Refixed(lowerer, t.ast, t.hir, i) {
        assert lowering(t.ast[i], lowerer.lower(i + 1, t.ast[i]).value);
      }
    }
  }

  /** A version that is one edit away, and whose changed chunk can be lowered, is reached with both trees aligned. */
  lemma QuickCheckReaches<A(!new), H(!new)>(lowering: (A, H) -> bool, lowerer: Lowerer<A, H>, t: Trees<A, H>, new_: seq<A>)
    requires Aligned(lowering, t) && Lowers(lowering, lowerer)
    requires OneEdit(t.ast, new_) && LoweredDiff(lowerer, DiffOf(t.ast, new_)).Some?
    ensures QuickChecked(t, new_, lowerer).ast == new_ && Aligned(lowering, QuickChecked(t, new_, lowerer))
  {
    hide DiffOf, OneEdit, Lowers, Fixed, Aligned;
    var d := DiffOf(t.ast, new_);
    OneEditIff(t.ast, new_);
    EditKeepsAligned(lowering, lowerer, t, d);
    FixFromOwnTree(lowering, lowerer, Trees(new_, Edited(t.hir, LoweredDiff(lowerer, d).value)));
  }

  datatype Check<!A, !H> = Check(version: seq<A>, lowerer: Lowerer<A, H>)

  function AllChecked<A(==), H>(t: Trees<A, H>, checks: seq<Check<A, H>>): Trees<A, H>
    decreases |checks|
  {
    if checks == [] then t else AllChecked(QuickChecked(t, checks[0].version, checks[0].lowerer), checks[1..])
  }

  /** Each version is one edit after the one before it, and its changed chunk can be lowered. */
  ghost predicate Incremental<A(!new), H(!new)>(lowering: (A, H) -> bool, ast: seq<A>, checks: seq<Check<A, H>>)
    decreases |checks|
  {
    checks != [] ==>
      && OneEdit(ast, checks[0].version) && Lowers(lowering, checks[0].lowerer)
      && LoweredDiff(checks[0].lowerer, DiffOf(ast, checks[0].version)).Some?
      && Incremental(lowering, checks[0].version, checks[1..])
  }

  /** Over a whole run of such checks, the syntax tree follows the text and the typed tree follows the syntax tree. */
  lemma {:induction false} RunStaysAligned<A(!new), H(!new)>(lowering: (A, H) -> bool, t: Trees<A, H>, checks: seq<Check<A, H>>)
    requires Aligned(lowering, t) && Incremental(lowering, t.ast, checks)
    ensures Aligned(lowering, AllChecked(t, checks))
    ensures AllChecked(t, checks).ast == if checks == [] then t.ast else checks[|checks| - 1].version
    decreases |checks|
  {
    hide QuickChecked, OneEdit, LoweredDiff, DiffOf, Lowers, Aligned;
    if checks != [] {
      var next := QuickChecked(t, checks[0].version, checks[0].lowerer);
      QuickCheckReaches(lowering, checks[0].lowerer, t, checks[0].version);
      RunStaysAligned(lowering, next, checks[1..]);
    }
  }
}
