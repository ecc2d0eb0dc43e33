/**
 Levenshtein distance with a limit, computed with one row of the table, and the search for a similar name.
 The distance is defined independently of the table, as the least cost of an edit script.
 */
module EditDistance {
  import opened Wrappers

  // ---- what the distance means ----

  datatype Edit = Keep | Replace(c: char) | Delete | Insert(c: char)

  function Init(s: string): string
    requires s != ""
  {
    s[..|s| - 1]
  }

  function Last(s: string): char
    requires s != ""
  {
    s[|s| - 1]
  }

  /** What a script makes of a word, if it consumes the whole word; the last edit deals with the end of it. */
  function Apply(script: seq<Edit>, a: string): Option<string> {
    if script == [] then if a == "" then Some("") else None
    else
      var n := |script| - 1;
      match script[n]
      case Keep => if a == "" then None else Append(Apply(script[..n], Init(a)), Last(a))
      case Replace(c) => if a == "" then None else Append(Apply(script[..n], Init(a)), c)
      case Delete => if a == "" then None else Apply(script[..n], Init(a))
      case Insert(c) => Append(Apply(script[..n], a), c)
  }

  function Append(r: Option<string>, c: char): Option<string> {
    match r
    case None => None
    case Some(s) => Some(s + [c])
  }

  /** Every edit but keeping a character costs one. */
  function Cost(script: seq<Edit>): nat {
    if script == [] then 0 else Cost(script[..|script| - 1]) + (if script[|script| - 1].Keep? then 0 else 1)
  }

  function Min(x: nat, y: nat): nat {
    if x <= y then x else y
  }

  function Dist(a: string, b: string): nat
    decreases |a| + |b|
  {
    if a == "" then |b|
    else if b == "" then |a|
    else
      Min(Min(Dist(Init(a), b), Dist(a, Init(b))) + 1,
          Dist(Init(a), Init(b)) + (if Last(a) == Last(b) then 0 else 1))
  }

  lemma {:induction false} DistSymmetric(a: string, b: string)
    ensures Dist(a, b) == Dist(b, a)
    decreases |a| + |b|
  {
    if a != "" && b != "" {
      DistSymmetric(Init(a), b);
      DistSymmetric(a, Init(b));
      DistSymmetric(Init(a), Init(b));
    }
  }

  /** Dropping the last character of one word brings the words at most one further apart. */
  lemma {:induction false} DistShrinks(a: string, b: string)
    requires a != ""
    ensures Dist(Init(a), b) <= Dist(a, b) + 1
    decreases |a| + |b|
  {
    if b != "" {
      DistShrinks(a, Init(b));
      if Init(a) != "" {
        assert Dist(Init(a), b) <= Dist(Init(a), Init(b)) + 1;
      }
    }
  }

  /** No script turns `a` into `b` for less. */
  lemma {:induction false} DistIsLowerBound(a: string, b: string, script: seq<Edit>)
    requires Apply(script, a) == Some(b)
    ensures Dist(a, b) <= Cost(script)
    decreases |script|
  {
    if script != [] {
      var rest := script[..|script| - 1];
      match script[|script| - 1]
      case Keep => DistIsLowerBound(Init(a), Init(b), rest);
      case Replace(c) => DistIsLowerBound(Init(a), Init(b), rest);
      case Delete => DistIsLowerBound(Init(a), b, rest);
      case Insert(c) => DistIsLowerBound(a, Init(b), rest);
    }
  }

  lemma LastEdit(script: seq<Edit>, e: Edit)
    ensures (script + [e])[..|script|] == script
    ensures Cost(script + [e]) == Cost(script) + (if e.Keep? then 0 else 1)
  {
  }

  /** Some script turns `a` into `b` for that much. */
  lemma {:induction false} DistAttained(a: string, b: string) returns (script: seq<Edit>)
    ensures Apply(script, a) == Some(b) && Cost(script) == Dist(a, b)
    decreases |a| + |b|
  {
    if a == "" && b == "" {
      script := [];
    } else if b == "" || (a != "" && Dist(a, b) == Dist(Init(a), b) + 1) {
      script := DistAttained(Init(a), b);
      LastEdit(script, Delete);
      script := script + [Delete];
    } else if a == "" || Dist(a, b) == Dist(a, Init(b)) + 1 {
      script := DistAttained(a, Init(b));
      LastEdit(script, Insert(Last(b)));
      assert Init(b) + [Last(b)] == b;
      script := script + [Insert(Last(b))];
    } else {
      script := DistAttained(Init(a), Init(b));
      var e := if Last(a) == Last(b) then Keep else Replace(Last(b));
      LastEdit(script, e);
      assert Init(b) + [Last(b)] == b;
      script := script + [e];
    }
  }

  /** The words are at least as far apart as their lengths. */
  lemma {:induction false} DistAtLeastLengths(a: string, b: string)
    ensures Dist(a, b) >= |a| - |b| && Dist(a, b) >= |b| - |a|
    decreases |a| + |b|
  {
    if a != "" && b != "" {
      DistAtLeastLengths(Init(a), b);
      DistAtLeastLengths(a, Init(b));
      DistAtLeastLengths(Init(a), Init(b));
    }
  }

  lemma {:induction false} DistOfEqual(a: string)
    ensures Dist(a, a) == 0
    decreases |a|
  {
    if a != "" {
      DistOfEqual(Init(a));
    }
  }

  /** After equal characters the other two ways are never better. */
  lemma EqualTakesDiagonal(a: string, b: string)
    requires a != "" && b != "" && Last(a) == Last(b)
    ensures Dist(a, b) == Dist(Init(a), Init(b))
  {
    DistShrinks(b, Init(a));
    DistSymmetric(b, Init(a));
    DistSymmetric(Init(b), Init(a));
    DistShrinks(a, Init(b));
  }

  // ---- the table, one row at a time ----

  /** Entry `j` of row `i`. */
  ghost function Entry(a: string, b: string, i: nat, j: nat): nat
    requires i <= |a| && j <= |b|
  {
    Dist(a[..i], b[..j])
  }

  lemma FirstEntry(a: string, b: string, i: nat)
    requires i <= |a|
    ensures Entry(a, b, i, 0) == i
  {
  }

  lemma NextEntry(a: string, b: string, i: nat, j: nat)
    requires i < |a| && j < |b|
    ensures Entry(a, b, i + 1, j + 1) ==
              if a[i] == b[j] then Entry(a, b, i, j)
              else Min(Min(Entry(a, b, i, j), Entry(a, b, i, j + 1)), Entry(a, b, i + 1, j)) + 1
  {
    var x, y := a[..i + 1], b[..j + 1];
    assert Init(x) == a[..i] && Init(y) == b[..j] && Last(x) == a[i] && Last(y) == b[j];
    if a[i] == b[j] {
      EqualTakesDiagonal(x, y);
    }
  }

  /** Fills one row: entry `j` becomes the distance from `a[..i + 1]` to `b[..j]`. */
  method NextRow(dcol: array<nat>, a: string, b: string, i: nat)
    requires dcol.Length == |b| + 1 && i < |a|
    requires forall j :: 0 <= j <= |b| ==> dcol[j] == Entry(a, b, i, j)
    modifies dcol
    ensures forall j :: 0 <= j <= |b| ==> dcol[j] == Entry(a, b, i + 1, j)
  {
    hide Entry;
    var sc := a[i];
    var current := i;
    dcol[0] := current + 1;
    FirstEntry(a, b, i);
    FirstEntry(a, b, i + 1);
    for j := 0 to |b|
      invariant current == Entry(a, b, i, j)
      invariant forall k :: 0 <= k <= j ==> dcol[k] == Entry(a, b, i + 1, k)
      invariant forall k :: j < k <= |b| ==> dcol[k] == Entry(a, b, i, k)
    {
      var next := dcol[j + 1];
      NextEntry(a, b, i, j);
      if sc == b[j] {
        dcol[j + 1] := current;
      } else {
        dcol[j + 1] := Min(current, next);
        dcol[j + 1] := Min(dcol[j + 1], dcol[j]) + 1;
      }
      current := next;
    }
  }

  /** The distance if it is within the limit, and nothing if it is not. */
  method Levenshtein(a: string, b: string, limit: nat) returns (r: Option<nat>)
    ensures r == if Dist(a, b) <= limit then Some(Dist(a, b)) else None
  {
    if a == b {
      DistOfEqual(a);
      return Some(0);
    }
    var n, m := |a|, |b|;
    var minDist := if m < n then n - m else m - n;
    DistAtLeastLengths(a, b);
    if minDist > limit {
      return None;
    }
    if n == 0 || m == 0 {
      return Some(minDist);
    }
    var dcol := new nat[m + 1](j => j);
    for i := 0 to n
      invariant forall j :: 0 <= j <= m ==> dcol[j] == Entry(a, b, i, j)
    {
      NextRow(dcol, a, b, i);
    }
    assert a[..n] == a && b[..m] == b;
    return if dcol[m] <= limit then Some(dcol[m]) else None;
  }

  // ---- the most similar name ----

  /** `c` is the first of the candidates nearest to `name`. */
  ghost predicate FirstNearest(candidates: seq<string>, name: string, c: nat)
    requires c < |candidates|
  {
    && (forall j :: 0 <= j < |candidates| ==> Dist(candidates[c], name) <= Dist(candidates[j], name))
    && (forall j :: 0 <= j < c ==> Dist(candidates[c], name) < Dist(candidates[j], name))
  }

  /**
   The first candidate of least key, where a candidate beyond the limit has the greatest key;
   it is dropped again unless it is strictly below the limit.
   */
  method GetSimilarName(candidates: seq<string>, name: string, limit: nat) returns (r: Option<nat>)
    ensures r.Some? <==> exists j :: 0 <= j < |candidates| && Dist(candidates[j], name) < limit
    ensures r.Some? ==> r.value < |candidates| && FirstNearest(candidates, name, r.value)
  {
    hide Dist;
    if candidates == [] {
      return None;
    }
    var best := 0;
    var least := Levenshtein(candidates[0], name, limit);
    for i := 1 to |candidates|
      invariant best < i
      invariant least == if Dist(candidates[best], name) <= limit then Some(Dist(candidates[best], name)) else None
      invariant least.None? ==> forall j :: 0 <= j < i ==> Dist(candidates[j], name) > limit
      invariant least.Some? ==> forall j :: 0 <= j < i ==> least.value <= Dist(candidates[j], name)
      invariant least.Some? ==> forall j :: 0 <= j < best ==> least.value < Dist(candidates[j], name)
    {
      var key := Levenshtein(candidates[i], name, limit);
      if key.Some? && (least.None? || key.value < least.value) {
        best, least := i, key;
      }
    }
    var dist := Levenshtein(candidates[best], name, limit);
    if dist.None? || dist.value >= limit {
      return None;
    }
    return Some(best);
  }
}
