/**
 Line and column positions in a text, the text between two positions, and edits at positions.
 Every character is one byte wide, so that columns, string indices and byte indices agree.
 */
module TextPositions {
  import opened Wrappers

  datatype Position = Position(line: nat, character: nat)

  datatype Range = Range(start: Position, end: Position)

  /** A change without a range is one that the client means to replace the whole text. */
  datatype Change = Change(range: Option<Range>, text: string)

  predicate Before(p: Position, q: Position) {
    p.line < q.line || (p.line == q.line && p.character <= q.character)
  }

  // ---- positions and indices ----

  function Step(p: Position, c: char): Position {
    if c == '\n' then Position(p.line + 1, 0) else Position(p.line, p.character + 1)
  }

  /** The position of an index: how many lines are before it, and how far it is from the start of its line. */
  function PositionAt(src: string, i: nat): Position
    requires i <= |src|
  {
    if i == 0 then Position(0, 0) else Step(PositionAt(src, i - 1), src[i - 1])
  }

  lemma {:induction false} PositionsIncrease(src: string, i: nat, j: nat)
    requires i < j <= |src|
    ensures Before(PositionAt(src, i), PositionAt(src, j)) && PositionAt(src, i) != PositionAt(src, j)
    decreases j
  {
    if i < j - 1 {
      PositionsIncrease(src, i, j - 1);
    }
  }

  /** Whether a position is one of the text. */
  ghost predicate InText(src: string, pos: Position) {
    exists i :: 0 <= i <= |src| && PositionAt(src, i) == pos
  }

  /** The index of a position; positions outside the text stand for its end. */
  ghost function IndexOf(src: string, pos: Position): (i: nat)
    ensures i <= |src|
    ensures InText(src, pos) ==> PositionAt(src, i) == pos
    ensures !InText(src, pos) ==> i == |src|
  {
    if InText(src, pos) then
      var i :| 0 <= i <= |src| && PositionAt(src, i) == pos; i
    else |src|
  }

  /** Finding the index of a position undoes taking the position of an index. */
  lemma IndexOfPosition(src: string, i: nat)
    requires i <= |src|
    ensures IndexOf(src, PositionAt(src, i)) == i
  {
    var j := IndexOf(src, PositionAt(src, i));
    if j < i {
      PositionsIncrease(src, j, i);
    } else if i < j {
      PositionsIncrease(src, i, j);
    }
  }

  /** Searching for a position from the front. */
  method PosToByteIndex(src: string, pos: Position) returns (index: nat)
    ensures index == IndexOf(src, pos)
  {
    if src == "" {
      assert PositionAt(src, 0) == PositionAt(src, |src|);
      return 0;
    }
    var line, col := 0, 0;
    for i := 0 to |src|
      invariant Position(line, col) == PositionAt(src, i)
      invariant forall j :: 0 <= j < i ==> PositionAt(src, j) != pos
    {
      if line == pos.line && col == pos.character {
        IndexOfPosition(src, i);
        return i;
      }
      if src[i] == '\n' {
        line, col := line + 1, 0;
      } else {
        col := col + 1;
      }
    }
    if InText(src, pos) {
      assert PositionAt(src, |src|) == pos;
      IndexOfPosition(src, |src|);
    }
    return |src|;
  }

  /** Ordered positions of the text have ordered indices. */
  lemma OrderedIndices(src: string, p: Position, q: Position)
    requires InText(src, p) && InText(src, q)
    ensures Before(p, q) <==> IndexOf(src, p) <= IndexOf(src, q)
  {
    var i, j := IndexOf(src, p), IndexOf(src, q);
    if i < j {
      PositionsIncrease(src, i, j);
    } else if j < i {
      PositionsIncrease(src, j, i);
    }
  }

  // ---- lines ----

  /** The length of the first line, without its end. */
  function LineLength(src: string): (n: nat)
    ensures n <= |src| && (n < |src| ==> src[n] == '\n') && forall i :: 0 <= i < n ==> src[i] != '\n'
  {
    if src == "" || src[0] == '\n' then 0 else 1 + LineLength(src[1..])
  }

  /** A line whose end is a line feed loses a carriage return before it as well. */
  function FirstLine(src: string): (line: string)
    ensures |line| <= LineLength(src) && line == src[..|line|]
  {
    var n := LineLength(src);
    if n < |src| && n > 0 && src[n - 1] == '\r' then src[..n - 1] else src[..n]
  }

  /** What follows the first line and its end. */
  function AfterLine(src: string): (rest: string)
    ensures src != "" ==> |rest| < |src|
  {
    if LineLength(src) < |src| then src[LineLength(src) + 1..] else ""
  }

  /** The lines of a text; what follows the last line feed is one only if it is not empty. */
  function Lines(src: string): seq<string>
    decreases |src|
  {
    if src == "" then [] else [FirstLine(src)] + Lines(AfterLine(src))
  }

  // ---- the text between two positions, line by line ----

  datatype Ranged = Found(code: string) | OutOfLine | Panics

  /** What one line contributes to the text of a range. */
  function Piece(line: string, number: nat, range: Range): Ranged {
    var (start, end) := (range.start, range.end);
    if number < start.line || end.line < number then Found("")
    else if number == start.line && number == end.line then
      if |line| < end.character then OutOfLine
      else if end.character < start.character then Panics
      else Found(line[start.character..end.character])
    else if number == start.line then
      if |line| < start.character then Panics else Found(line[start.character..] + "\n")
    else if number == end.line then
      if |line| < end.character then OutOfLine else Found(line[..end.character])
    else Found(line + "\n")
  }

  /** All contributions, in order, unless one fails. */
  function Pieces(lines: seq<string>, number: nat, range: Range): Ranged
    decreases lines
  {
    if lines == [] then Found("")
    else
      var first := Piece(lines[0], number, range);
      if !first.Found? then first
      else
        var rest := Pieces(lines[1..], number + 1, range);
        if rest.Found? then Found(first.code + rest.code) else rest
  }

  /** One more line at the end. */
  lemma {:induction false} PiecesAppend(lines: seq<string>, number: nat, i: nat, range: Range)
    requires i < |lines| && Pieces(lines[..i], number, range).Found?
    ensures var last := Piece(lines[i], number + i, range);
            && (last.Found? ==> Pieces(lines[..i + 1], number, range) == Found(Pieces(lines[..i], number, range).code + last.code))
            && (!last.Found? ==> Pieces(lines, number, range) == last)
    decreases i
  {
    hide Piece;
    if i == 0 {
      assert lines[..1][1..] == [];
    } else {
      assert lines[1..][..i - 1] == lines[..i][1..] && lines[1..][..i] == lines[..i + 1][1..];
      PiecesAppend(lines[1..], number + 1, i - 1, range);
    }
  }

  method LinesOf(src: string) returns (lines: seq<string>)
    ensures lines == Lines(src)
  {
    hide LineLength, FirstLine, AfterLine;
    lines := [];
    var rest := src;
    while rest != ""
      invariant lines + Lines(rest) == Lines(src)
      decreases |rest|
    {
      lines, rest := lines + [FirstLine(rest)], AfterLine(rest);
    }
  }

  /** Collects the text of a range line by line. */
  method GetRanged(src: string, range: Range) returns (r: Ranged)
    ensures r == Pieces(Lines(src), 0, range)
  {
    hide Lines, LineLength;
    var lines := LinesOf(src);
    var code := "";
    for i := 0 to |lines|
      invariant Pieces(lines[..i], 0, range) == Found(code)
    {
      var line := lines[i];
      PiecesAppend(lines, 0, i, range);
      if i >= range.start.line && i <= range.end.line {
        if i == range.start.line && i == range.end.line {
          if |line| < range.end.character {
            return OutOfLine;
          }
          if range.end.character < range.start.character {
            return Panics;
          }
          code := code + line[range.start.character..range.end.character];
        } else if i == range.start.line {
          if |line| < range.start.character {
            return Panics;
          }
          code := code + line[range.start.character..];
          code := code + "\n";
        } else if i == range.end.line {
          if |line| < range.end.character {
            return OutOfLine;
          }
          code := code + line[..range.end.character];
        } else {
          code := code + line;
          code := code + "\n";
        }
      }
    }
    assert lines[..|lines|] == lines;
    return Found(code);
  }

  // ---- the collected text is the substring ----

  /** Every carriage return that a line feed follows is dropped. */
  function Unix(s: string): string {
    if s == "" then ""
    else if |s| > 1 && s[0] == '\r' && s[1] == '\n' then Unix(s[1..])
    else [s[0]] + Unix(s[1..])
  }

  /** The index is between a carriage return and its line feed. */
  predicate Splits(src: string, i: nat) {
    0 < i < |src| && src[i - 1] == '\r' && src[i] == '\n'
  }

  lemma {:induction false} UnixConcat(a: string, b: string)
    requires a != "" && a[|a| - 1] == '\n'
    ensures Unix(a + b) == Unix(a) + Unix(b)
  {
    assert (a + b)[1..] == a[1..] + b;
    if |a| == 1 {
      assert a[1..] + b == b;
    } else {
      UnixConcat(a[1..], b);
    }
  }

  lemma {:induction false} UnixInLine(s: string)
    requires '\n' !in s
    ensures Unix(s) == s
    ensures Unix(s + "\n") == (if s != "" && s[|s| - 1] == '\r' then s[..|s| - 1] else s) + "\n"
  {
    if s != "" {
      assert (s + "\n")[1..] == s[1..] + "\n";
      UnixInLine(s[1..]);
    }
  }

  /** Dropping them changes a text exactly if there is one to drop. */
  lemma {:induction false} UnixSameIff(s: string)
    ensures |Unix(s)| <= |s| && (Unix(s) == s <==> forall i :: 0 <= i <= |s| ==> !Splits(s, i))
  {
    if s != "" {
      UnixSameIff(s[1..]);
      if i :| 0 <= i <= |s| && Splits(s, i) {
        if i == 1 {
          assert |Unix(s)| < |s|;
        } else {
          assert Splits(s[1..], i - 1);
        }
      } else {
        assert !Splits(s, 1);
        forall i | 0 <= i <= |s[1..]|
          ensures !Splits(s[1..], i)
        {
          assert !Splits(s, i + 1);
        }
      }
    }
  }

  lemma AfterLineAt(src: string, i: nat)
    requires LineLength(src) < |src| && i <= |AfterLine(src)|
    ensures LineLength(src) + 1 + |AfterLine(src)| == |src|
    ensures i < |AfterLine(src)| ==> src[LineLength(src) + 1 + i] == AfterLine(src)[i]
  {
  }

  lemma {:induction false} PositionInFirstLine(src: string, i: nat)
    requires i <= LineLength(src)
    ensures PositionAt(src, i) == Position(0, i)
  {
    if i > 0 {
      PositionInFirstLine(src, i - 1);
    }
  }

  lemma {:induction false} PositionAfterFirstLine(src: string, i: nat)
    requires LineLength(src) < |src| && i <= |AfterLine(src)|
    ensures var p := PositionAt(AfterLine(src), i);
            PositionAt(src, LineLength(src) + 1 + i) == Position(p.line + 1, p.character)
  {
    if i == 0 {
      PositionInFirstLine(src, LineLength(src));
    } else {
      PositionAfterFirstLine(src, i - 1);
    }
  }

  lemma IndexInFirstLine(src: string, character: nat)
    ensures InText(src, Position(0, character)) <==> character <= LineLength(src)
    ensures character <= LineLength(src) ==> IndexOf(src, Position(0, character)) == character
  {
    var n := LineLength(src);
    if character <= n {
      PositionInFirstLine(src, character);
      IndexOfPosition(src, character);
    } else if i :| 0 <= i <= |src| && PositionAt(src, i) == Position(0, character) {
      PositionInFirstLine(src, n);
      if i <= n {
        PositionInFirstLine(src, i);
      } else {
        PositionAfterFirstLine(src, i - n - 1);
      }
    }
  }

  lemma IndexAfterFirstLine(src: string, line: nat, character: nat)
    requires InText(src, Position(line + 1, character))
    ensures LineLength(src) < |src| && InText(AfterLine(src), Position(line, character))
    ensures IndexOf(src, Position(line + 1, character)) ==
              LineLength(src) + 1 + IndexOf(AfterLine(src), Position(line, character))
  {
    hide FirstLine, LineLength, AfterLine, PositionAt;
    var n, i := LineLength(src), IndexOf(src, Position(line + 1, character));
    if i <= n {
      PositionInFirstLine(src, i);
    } else {
      AfterLineAt(src, 0);
      PositionAfterFirstLine(src, i - n - 1);
      IndexOfPosition(AfterLine(src), i - n - 1);
    }
  }

  lemma {:induction false} PiecesAfter(lines: seq<string>, number: nat, range: Range)
    requires range.end.line < number
    ensures Pieces(lines, number, range) == Found("")
  {
    if lines != [] {
      PiecesAfter(lines[1..], number + 1, range);
    }
  }

  /** The text of a range, by index; a position inside a line end stops the collection. */
  function Expected(src: string, i: nat, j: nat, sameLine: bool): Ranged
    requires i <= j <= |src|
  {
    if !sameLine && Splits(src, i) then Panics
    else if Splits(src, j) then OutOfLine
    else Found(Unix(src[i..j]))
  }

  /** Index of a position when the lines before `number` are gone. */
  ghost function IndexFrom(src: string, number: nat, pos: Position): (i: nat)
    ensures i <= |src|
  {
    if pos.line < number then 0 else IndexOf(src, Position(pos.line - number, pos.character))
  }

  ghost predicate InTextFrom(src: string, number: nat, pos: Position) {
    number <= pos.line ==> InText(src, Position(pos.line - number, pos.character))
  }

  lemma OrderedFrom(src: string, number: nat, range: Range)
    requires number <= range.end.line && Before(range.start, range.end)
    requires InTextFrom(src, number, range.start) && InTextFrom(src, number, range.end)
    ensures IndexFrom(src, number, range.start) <= IndexFrom(src, number, range.end)
  {
    if number <= range.start.line {
      OrderedIndices(src, Position(range.start.line - number, range.start.character),
        Position(range.end.line - number, range.end.character));
    }
  }

  lemma LaterLine(src: string, number: nat, pos: Position)
    requires number < pos.line && InTextFrom(src, number, pos)
    ensures LineLength(src) < |src| && InTextFrom(AfterLine(src), number + 1, pos)
    ensures IndexFrom(src, number, pos) == LineLength(src) + 1 + IndexFrom(AfterLine(src), number + 1, pos)
  {
    IndexAfterFirstLine(src, pos.line - number - 1, pos.character);
  }

  lemma FirstLineCut(src: string)
    requires LineLength(src) < |src|
    ensures src == src[..LineLength(src) + 1] + AfterLine(src)
  {
  }

  lemma SplitsAfter(src: string, i: nat)
    requires LineLength(src) < |src| && i <= |AfterLine(src)|
    ensures Splits(src, LineLength(src) + 1 + i) <==> Splits(AfterLine(src), i)
    ensures !Splits(AfterLine(src), 0)
  {
    hide LineLength;
  }

  lemma SliceAcross(a: string, b: string, i: nat, j: nat)
    requires i <= |a| && j <= |b|
    ensures (a + b)[i..|a| + j] == a[i..] + b[..j]
  {
  }

  lemma SliceBehind(a: string, b: string, i: nat, j: nat)
    requires i <= j <= |b|
    ensures (a + b)[|a| + i..|a| + j] == b[i..j]
  {
  }

  /** The range ends in the first line. */
  lemma LastPiece(src: string, i: nat, j: nat, sameLine: bool)
    requires i <= j <= LineLength(src) && (!sameLine ==> i == 0)
    ensures Expected(src, i, j, sameLine) == if |FirstLine(src)| < j then OutOfLine else Found(FirstLine(src)[i..j])
  {
    hide LineLength;
    hide Unix;
    if j <= |FirstLine(src)| {
      assert FirstLine(src)[i..j] == src[i..j];
      UnixInLine(src[i..j]);
    }
  }

  lemma FirstLineTail(src: string, i: nat)
    requires i <= LineLength(src) < |src|
    ensures Splits(src, i) <==> |FirstLine(src)| < i
    ensures !Splits(src, i) ==> Unix(src[i..LineLength(src)] + "\n") == FirstLine(src)[i..] + "\n"
  {
    hide LineLength, Unix;
    if !Splits(src, i) {
      var n := LineLength(src);
      var line := src[i..n];
      UnixInLine(line);
      if i < n && src[n - 1] == '\r' {
        assert line[|line| - 1] == '\r';
        assert FirstLine(src)[i..] == line[..|line| - 1];
      } else {
        assert FirstLine(src)[i..] == line;
      }
    }
  }

  /** The range goes on after the first line. */
  lemma FirstPiece(src: string, i: nat, j: nat)
    requires i <= LineLength(src) < |src| && j <= |AfterLine(src)|
    ensures Splits(src, i) <==> |FirstLine(src)| < i
    ensures Splits(src, i) ==> Expected(src, i, LineLength(src) + 1 + j, false) == Panics
    ensures var rest := Expected(AfterLine(src), 0, j, false);
            !Splits(src, i) ==>
              Expected(src, i, LineLength(src) + 1 + j, false) ==
              if rest.Found? then Found(FirstLine(src)[i..] + "\n" + rest.code) else rest
  {
    hide Unix, LineLength, FirstLine, AfterLine, Splits;
    FirstLineTail(src, i);
    if !Splits(src, i) {
      var n, rest := LineLength(src), AfterLine(src);
      var line := src[i..n] + "\n";
      FirstLineCut(src);
      SliceAcross(src[..n + 1], rest, i, j);
      assert src[i..n + 1 + j] == line + rest[..j] by {
        assert src[..n + 1][i..] == line;
      }
      UnixConcat(line, rest[..j]);
      assert rest[0..j] == rest[..j];
      SplitsAfter(src, j);
    }
  }

  lemma ShiftExpected(src: string, i: nat, j: nat, sameLine: bool)
    requires LineLength(src) < |src| && i <= j <= |AfterLine(src)|
    ensures var n := LineLength(src) + 1; Expected(src, n + i, n + j, sameLine) == Expected(AfterLine(src), i, j, sameLine)
  {
    hide Unix, AfterLine;
    var n := LineLength(src) + 1;
    FirstLineCut(src);
    SliceBehind(src[..n], AfterLine(src), i, j);
    SplitsAfter(src, i);
    SplitsAfter(src, j);
  }

  lemma {:induction false} PiecesAre(src: string, number: nat, range: Range)
    requires number <= range.end.line && Before(range.start, range.end)
    requires InTextFrom(src, number, range.start) && InTextFrom(src, number, range.end)
    ensures IndexFrom(src, number, range.start) <= IndexFrom(src, number, range.end)
    ensures Pieces(Lines(src), number, range) ==
              Expected(src, IndexFrom(src, number, range.start), IndexFrom(src, number, range.end), range.start.line == range.end.line)
    decreases |src|
  {
    hide InText, Unix, FirstLine, AfterLine, Expected, IndexOf, PositionAt, Splits, LineLength;
    var (start, end) := (range.start, range.end);
    var rest := AfterLine(src);
    OrderedFrom(src, number, range);
    IndexInFirstLine(src, start.character);
    IndexInFirstLine(src, end.character);
    if number == end.line {
      LastPiece(src, IndexFrom(src, number, start), end.character, start.line == end.line);
      PiecesAfter(Lines(rest), number + 1, range);
    } else {
      LaterLine(src, number, end);
      if number < start.line {
        LaterLine(src, number, start);
        PiecesAre(rest, number + 1, range);
        ShiftExpected(src, IndexFrom(rest, number + 1, start), IndexFrom(rest, number + 1, end), start.line == end.line);
      } else {
        FirstPiece(src, IndexFrom(src, number, start), IndexFrom(rest, number + 1, end));
        PiecesAre(rest, number + 1, range);
      }
    }
  }

  /**
   Collecting a range line by line gives the text between its two indices, but for carriage returns in line ends.
   A start inside a line end is a slice out of bounds, and an end inside one is out of the line.
   */
  lemma RangedText(src: string, range: Range)
    requires InText(src, range.start) && InText(src, range.end) && Before(range.start, range.end)
    ensures var i, j := IndexOf(src, range.start), IndexOf(src, range.end);
            && i <= j
            && Pieces(Lines(src), 0, range) ==
                 if range.start.line < range.end.line && Splits(src, i) then Panics
                 else if Splits(src, j) then OutOfLine
                 else Found(Unix(src[i..j]))
  {
    hide Unix, Pieces, Lines, Piece, InText, PositionAt, IndexOf;
    PiecesAre(src, 0, range);
  }

  /** So the two ways to cut a text agree exactly on ranges without a carriage return before a line feed. */
  lemma RangedIsSubstringIff(src: string, range: Range)
    requires InText(src, range.start) && InText(src, range.end) && Before(range.start, range.end)
    requires !Splits(src, IndexOf(src, range.start)) && !Splits(src, IndexOf(src, range.end))
    ensures var i, j := IndexOf(src, range.start), IndexOf(src, range.end);
            i <= j && (Pieces(Lines(src), 0, range) == Found(src[i..j]) <==> forall k :: i <= k <= j ==> !Splits(src, k))
  {
    hide Pieces, Lines, Unix, PositionAt, Before;
    var i, j := IndexOf(src, range.start), IndexOf(src, range.end);
    RangedText(src, range);
    UnixSameIff(src[i..j]);
    forall k | i < k < j
      ensures Splits(src, k) == Splits(src[i..j], k - i)
    {
    }
    if k :| i <= k <= j && Splits(src, k) {
      assert i < k < j;
    } else {
      forall k | 0 <= k <= |src[i..j]|
        ensures !Splits(src[i..j], k)
      {
        assert !Splits(src, i + k);
      }
    }
  }

  // ---- edits ----

  /** Replaces the text between the indices of two positions; a range whose end comes first is refused by a panic. */
  ghost function Spliced(src: string, range: Range, text: string): Option<string> {
    var i, j := IndexOf(src, range.start), IndexOf(src, range.end);
    if i <= j then Some(src[..i] + text + src[j..]) else None
  }

  method ReplaceRange(src: string, range: Range, text: string) returns (r: Option<string>)
    ensures r == Spliced(src, range, text)
  {
    var start := PosToByteIndex(src, range.start);
    var end := PosToByteIndex(src, range.end);
    r := if start <= end then Some(src[..start] + text + src[end..]) else None;
  }

  /** Exactly which ranges make an edit panic: a real end before a start that is later, or not in the text. */
  lemma SpliceFailsIff(src: string, range: Range, text: string)
    ensures Spliced(src, range, text).None? <==>
              && InText(src, range.end)
              && (if InText(src, range.start) then !Before(range.start, range.end) else IndexOf(src, range.end) < |src|)
  {
    if InText(src, range.end) && InText(src, range.start) {
      OrderedIndices(src, range.start, range.end);
    }
  }

  /** The changes of one notification, one after the other; those without a range are passed over. */
  ghost function Folded(src: string, changes: seq<Change>): Option<string>
    decreases |changes|
  {
    if changes == [] then Some(src)
    else if changes[0].range.None? then Folded(src, changes[1..])
    else
      var next := Spliced(src, changes[0].range.value, changes[0].text);
      if next.None? then None else Folded(next.value, changes[1..])
  }

  method FoldChanges(src: string, changes: seq<Change>) returns (r: Option<string>)
    ensures r == Folded(src, changes)
  {
    var code := src;
    for i := 0 to |changes|
      invariant Folded(code, changes[i..]) == Folded(src, changes)
    {
      assert changes[i..][1..] == changes[i + 1..];
      if changes[i].range.Some? {
        var next := ReplaceRange(code, changes[i].range.value, changes[i].text);
        if next.None? {
          return None;
        }
        code := next.value;
      }
    }
    return Some(code);
  }

  // ---- what the protocol asks for ----

  /** A line of the protocol begins: after a line feed, or a carriage return that no line feed follows. */
  predicate BeginsLine(src: string, i: nat)
    requires i <= |src|
  {
    i == 0 || src[i - 1] == '\n' || (src[i - 1] == '\r' && !(i < |src| && src[i] == '\n'))
  }

  /** The number of the line an index is in, by the protocol. */
  function LineAt(src: string, i: nat): nat
    requires i <= |src|
  {
    if i == 0 then 0 else LineAt(src, i - 1) + (if BeginsLine(src, i) then 1 else 0)
  }

  /** Where the last line up to `n` with a given number begins. */
  function StartUpTo(src: string, line: nat, n: nat): (s: nat)
    requires n <= |src| && line <= LineAt(src, n)
    ensures s <= n && BeginsLine(src, s) && LineAt(src, s) == line
  {
    if BeginsLine(src, n) && LineAt(src, n) == line then n else StartUpTo(src, line, n - 1)
  }

  /** Where a line begins. */
  function StartOf(src: string, line: nat): (s: nat)
    requires line <= LineAt(src, |src|)
    ensures s <= |src| && BeginsLine(src, s) && LineAt(src, s) == line
  {
    StartUpTo(src, line, |src|)
  }

  /** Where the line that begins at `s` ends, before whatever ends it. */
  function EndOf(src: string, s: nat): (e: nat)
    requires s <= |src|
    ensures s <= e <= |src| && (forall k :: s <= k < e ==> src[k] != '\n' && src[k] != '\r')
    ensures e < |src| ==> src[e] == '\n' || src[e] == '\r'
    decreases |src| - s
  {
    if s == |src| || src[s] == '\n' || src[s] == '\r' then s else EndOf(src, s + 1)
  }

  /**
   The index of a position by the protocol (Language Server Protocol 3.17, sections Position and Text Documents):
   a column past the end of its line means the end of the line. A line past the last one means the end of the text.
   */
  function ProtocolIndex(src: string, pos: Position): (i: nat)
    ensures i <= |src|
  {
    if pos.line > LineAt(src, |src|) then |src|
    else
      var s := StartOf(src, pos.line);
      if s + pos.character <= EndOf(src, s) then s + pos.character else EndOf(src, s)
  }

  lemma {:induction false} LinesIncrease(src: string, i: nat, j: nat)
    requires i <= j <= |src|
    ensures LineAt(src, i) <= LineAt(src, j) && (i < j && BeginsLine(src, j) ==> LineAt(src, i) < LineAt(src, j))
    decreases j
  {
    if i < j {
      LinesIncrease(src, i, j - 1);
    }
  }

  /** Within a line the number stays. */
  lemma {:induction false} SameLineUpTo(src: string, s: nat, j: nat)
    requires s <= |src| && s <= j <= EndOf(src, s)
    ensures LineAt(src, j) == LineAt(src, s)
    decreases j
  {
    if s < j {
      SameLineUpTo(src, s, j - 1);
    }
  }

  /** A carriage return that no line feed follows. */
  predicate Lone(src: string, k: nat)
    requires k < |src|
  {
    src[k] == '\r' && !(k + 1 < |src| && src[k + 1] == '\n')
  }

  /** Counting line feeds gives the number of the line exactly if there is no lone carriage return before. */
  lemma {:induction false} LineFeedsCount(src: string, i: nat)
    requires i <= |src|
    ensures PositionAt(src, i).line <= LineAt(src, i)
    ensures PositionAt(src, i).line == LineAt(src, i) <==> forall k :: 0 <= k < i ==> !Lone(src, k)
  {
    if i > 0 {
      LineFeedsCount(src, i - 1);
      assert (forall k :: 0 <= k < i ==> !Lone(src, k)) <==> (forall k :: 0 <= k < i - 1 ==> !Lone(src, k)) && !Lone(src, i - 1);
    }
  }

  /** Where the stretch without a line feed that an index is in begins. */
  lemma {:induction false} ColumnStart(src: string, i: nat)
    requires i <= |src|
    ensures var p := PositionAt(src, i);
            && p.character <= i && PositionAt(src, i - p.character) == Position(p.line, 0)
            && (forall k :: i - p.character <= k < i ==> src[k] != '\n')
            && (i == p.character || src[i - p.character - 1] == '\n')
  {
    if i > 0 {
      ColumnStart(src, i - 1);
    }
  }

  /** Every carriage return before the index belongs to a line end that is also before it. */
  predicate OnlyLineFeeds(src: string, i: nat)
    requires i <= |src|
  {
    forall k :: 0 <= k < i && src[k] == '\r' ==> k + 1 < i && src[k + 1] == '\n'
  }

  /** A position of the text is found where the protocol has it exactly if it and all lines before end in line feeds only. */
  lemma InTextMeetsProtocolIff(src: string, pos: Position)
    requires pos.line <= LineAt(src, |src|) && InText(src, pos)
    ensures IndexOf(src, pos) == ProtocolIndex(src, pos) <==> OnlyLineFeeds(src, IndexOf(src, pos))
  {
    var i := IndexOf(src, pos);
    if OnlyLineFeeds(src, i) {
      FoundAtColumn(src, i);
    } else if i == ProtocolIndex(src, pos) {
      FoundMeansOnlyLineFeeds(src, pos.line, i);
    }
  }

  lemma FoundAtColumn(src: string, i: nat)
    requires i <= |src| && OnlyLineFeeds(src, i)
    ensures PositionAt(src, i).line <= LineAt(src, |src|) && ProtocolIndex(src, PositionAt(src, i)) == i
  {
    hide EndOf, StartOf, PositionAt;
    var p := PositionAt(src, i);
    ColumnStart(src, i);
    var c := i - p.character;
    forall k | 0 <= k < i
      ensures !Lone(src, k)
    {
    }
    LineFeedsCount(src, c);
    LinesIncrease(src, c, |src|);
    StartUnique(src, c, StartOf(src, p.line));
    forall k | c <= k < i
      ensures src[k] != '\n' && src[k] != '\r'
    {
      if k + 1 < i {
        assert src[k + 1] != '\n';
      }
    }
  }

  lemma StartUnique(src: string, s: nat, s': nat)
    requires s <= |src| && s' <= |src| && BeginsLine(src, s) && BeginsLine(src, s') && LineAt(src, s) == LineAt(src, s')
    ensures s == s'
  {
    if s < s' {
      LinesIncrease(src, s, s');
    } else if s' < s {
      LinesIncrease(src, s', s);
    }
  }

  lemma FoundMeansOnlyLineFeeds(src: string, line: nat, i: nat)
    requires line <= LineAt(src, |src|) && i <= |src| && PositionAt(src, i).line == line
    requires var s := StartOf(src, line); s <= i <= EndOf(src, s)
    ensures OnlyLineFeeds(src, i)
  {
    hide EndOf, StartOf, PositionAt;
    var s := StartOf(src, line);
    SameLineUpTo(src, s, i);
    LineFeedsCount(src, i);
    forall k | 0 <= k < i && src[k] == '\r'
      ensures k + 1 < i && src[k + 1] == '\n'
    {
      assert !Lone(src, k);
    }
  }

  /** A line is the last one exactly if it ends with the text. */
  lemma LastLineIff(src: string, s: nat)
    requires s <= |src| && BeginsLine(src, s)
    ensures EndOf(src, s) == |src| <==> LineAt(src, s) == LineAt(src, |src|)
  {
    hide EndOf;
    var e := EndOf(src, s);
    SameLineUpTo(src, s, e);
    if e < |src| {
      var next := if src[e] == '\r' && e + 1 < |src| && src[e + 1] == '\n' then e + 2 else e + 1;
      assert BeginsLine(src, next);
      LinesIncrease(src, s, next);
      LinesIncrease(src, next, |src|);
    }
  }

  /**
   For every line of every text, the index that is found is the protocol's exactly if the position is one of the text
   that only line feeds lead up to, or a column at or past the end of the last line.
   */
  lemma MeetsProtocolIff(src: string, pos: Position)
    requires pos.line <= LineAt(src, |src|)
    ensures IndexOf(src, pos) == ProtocolIndex(src, pos) <==>
              if InText(src, pos) then OnlyLineFeeds(src, IndexOf(src, pos))
              else pos.line == LineAt(src, |src|) && StartOf(src, pos.line) + pos.character >= |src|
  {
    if InText(src, pos) {
      InTextMeetsProtocolIff(src, pos);
    } else {
      LastLineIff(src, StartOf(src, pos.line));
    }
  }

  // ---- what the protocol makes of a notification ----

  /** A position of the text that is found where the protocol has it. */
  ghost predicate Agreed(src: string, pos: Position) {
    InText(src, pos) && OnlyLineFeeds(src, IndexOf(src, pos))
  }

  /** A change without a range replaces the whole text. */
  function ProtocolApplied(src: string, change: Change): string {
    if change.range.None? then change.text
    else
      var (i, j) := (ProtocolIndex(src, change.range.value.start), ProtocolIndex(src, change.range.value.end));
      if i <= j then src[..i] + change.text + src[j..] else src
  }

  function ProtocolFolded(src: string, changes: seq<Change>): string
    decreases |changes|
  {
    if changes == [] then src else ProtocolFolded(ProtocolApplied(src, changes[0]), changes[1..])
  }

  /** Every range is one of the text it is meant for. */
  ghost predicate ValidRanges(src: string, changes: seq<Change>)
    decreases |changes|
  {
    changes != [] ==>
      && (changes[0].range.Some? ==>
            var r := changes[0].range.value; Agreed(src, r.start) && Agreed(src, r.end) && Before(r.start, r.end))
      && ValidRanges(ProtocolApplied(src, changes[0]), changes[1..])
  }

  /** After every change the text is the one the client has. */
  ghost predicate InStep(src: string, changes: seq<Change>) {
    forall k :: 0 <= k <= |changes| ==> Folded(src, changes[..k]) == Some(ProtocolFolded(src, changes[..k]))
  }

  /** A change without a range repeats the text as it is. */
  predicate OnlyRepeats(src: string, changes: seq<Change>) {
    forall k :: 0 <= k < |changes| && changes[k].range.None? ==> changes[k].text == ProtocolFolded(src, changes[..k])
  }

  lemma RangeMeetsProtocol(src: string, change: Change)
    requires change.range.Some? && Agreed(src, change.range.value.start) && Agreed(src, change.range.value.end)
    requires Before(change.range.value.start, change.range.value.end)
    ensures Spliced(src, change.range.value, change.text) == Some(ProtocolApplied(src, change))
  {
    hide ProtocolIndex, InText, OnlyLineFeeds;
    var (start, end) := (change.range.value.start, change.range.value.end);
    AgreedIndex(src, start);
    AgreedIndex(src, end);
    OrderedIndices(src, start, end);
  }

  lemma AgreedIndex(src: string, pos: Position)
    requires Agreed(src, pos)
    ensures IndexOf(src, pos) == ProtocolIndex(src, pos)
  {
    FoundAtColumn(src, IndexOf(src, pos));
  }

  lemma FoldedCons(src: string, changes: seq<Change>, k: nat)
    requires 0 < k <= |changes|
    ensures changes[..k][0] == changes[0] && changes[..k][1..] == changes[1..][..k - 1]
  {
  }

  /** A change after which both texts are the same can be taken off both sides. */
  lemma StepTogether(src: string, changes: seq<Change>, next: string)
    requires changes != [] && next == ProtocolApplied(src, changes[0])
    requires if changes[0].range.Some? then Spliced(src, changes[0].range.value, changes[0].text) == Some(next) else next == src
    ensures InStep(src, changes) <==> InStep(next, changes[1..])
    ensures OnlyRepeats(src, changes) <==> OnlyRepeats(next, changes[1..])
  {
    hide Spliced, ProtocolIndex;
    var rest := changes[1..];
    forall k: nat | k <= |rest|
      ensures Folded(src, changes[..k + 1]) == Folded(next, rest[..k])
      ensures ProtocolFolded(src, changes[..k + 1]) == ProtocolFolded(next, rest[..k])
    {
      FoldedCons(src, changes, k + 1);
    }
    if InStep(next, rest) {
      forall k | 0 <= k <= |changes|
        ensures Folded(src, changes[..k]) == Some(ProtocolFolded(src, changes[..k]))
      {
        if k > 0 {
          assert Folded(next, rest[..k - 1]) == Some(ProtocolFolded(next, rest[..k - 1]));
        }
      }
    } else {
      var k :| 0 <= k <= |rest| && Folded(next, rest[..k]) != Some(ProtocolFolded(next, rest[..k]));
      assert Folded(src, changes[..k + 1]) != Some(ProtocolFolded(src, changes[..k + 1]));
    }
    if OnlyRepeats(next, rest) {
      forall k | 0 <= k < |changes| && changes[k].range.None?
        ensures changes[k].text == ProtocolFolded(src, changes[..k])
      {
        if k > 0 {
          assert rest[k - 1] == changes[k];
        }
      }
    } else {
      var k :| 0 <= k < |rest| && rest[k].range.None? && rest[k].text != ProtocolFolded(next, rest[..k]);
      assert changes[k + 1] == rest[k];
    }
  }

  /**
   With ranges of the text they are meant for, the text follows the protocol after every change exactly if
   every change without a range repeats the text as it is then.
   */
  lemma {:induction false} FoldMeetsProtocolIff(src: string, changes: seq<Change>)
    requires ValidRanges(src, changes)
    ensures InStep(src, changes) <==> OnlyRepeats(src, changes)
    decreases |changes|
  {
    hide Agreed, Spliced;
    if changes != [] {
      var c := changes[0];
      if c.range.Some? {
        RangeMeetsProtocol(src, c);
        StepTogether(src, changes, ProtocolApplied(src, c));
        FoldMeetsProtocolIff(ProtocolApplied(src, c), changes[1..]);
      } else if c.text == src {
        StepTogether(src, changes, src);
        FoldMeetsProtocolIff(src, changes[1..]);
      } else {
        WholeTextIgnored(src, c, changes);
      }
    }
  }

  /** A change without a range that is not the text puts the text out of step at once. */
  lemma WholeTextIgnored(src: string, c: Change, changes: seq<Change>)
    requires changes != [] && c == changes[0] && c.range.None? && c.text != src
    ensures !InStep(src, changes) && !OnlyRepeats(src, changes)
  {
    assert changes[..1] == [c] && [c][1..] == [];
    assert Folded(src, changes[..1]) == Some(src);
    assert ProtocolFolded(src, changes[..1]) == c.text;
    assert changes[..0] == [];
  }
}
