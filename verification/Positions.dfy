/**
 Positions in a document. `PositionAt` reads a position off the flat text, character by character;
 `InLines` and `Offset` are what the code works with once the text has been split into lines.
 The lemmas show that the two views are isomorphic.
 */
module Positions {
  import opened Text

  const NEWLINE := '\n'

  datatype Position = Position(line: nat, character: nat)

  predicate Before(p: Position, q: Position) {
    p.line < q.line || (p.line == q.line && p.character < q.character)
  }

  predicate AtOrBefore(p: Position, q: Position) {
    p == q || Before(p, q)
  }

  /** The position of the gap in front of character `offset`. */
  function PositionAt(text: string, offset: nat): Position
    requires offset <= |text|
  {
    if offset == 0 then Position(0, 0)
    else
      var p := PositionAt(text, offset - 1);
      if text[offset - 1] == NEWLINE then Position(p.line + 1, 0) else Position(p.line, p.character + 1)
  }

  /** `p` is the position of some gap of the text. */
  ghost predicate Located(text: string, p: Position) {
    exists o: nat :: o <= |text| && PositionAt(text, o) == p
  }

  predicate InLines(lines: seq<string>, p: Position) {
    p.line < |lines| && p.character <= |lines[p.line]|
  }

  function Min(a: nat, b: nat): nat {
    if a <= b then a else b
  }

  predicate PastLine(lines: seq<string>, p: Position)
    requires p.line < |lines|
  {
    p.character > |lines[p.line]|
  }

  function Clip(lines: seq<string>, p: Position): (r: Position)
    requires p.line < |lines|
    ensures InLines(lines, r)
  {
    Position(p.line, Min(p.character, |lines[p.line]|))
  }

  /** Clipping keeps what is in range and takes the rest to the end of its line. */
  lemma ClipsExactly(lines: seq<string>, p: Position)
    requires p.line < |lines|
    ensures InLines(lines, p) ==> Clip(lines, p) == p
    ensures !InLines(lines, p) ==> Clip(lines, p) == Position(p.line, |lines[p.line]|)
  {
  }

  function LineStart(lines: seq<string>, line: nat): nat
    requires line <= |lines|
  {
    if line == 0 then 0 else LineStart(lines, line - 1) + |lines[line - 1]| + 1
  }

  function Offset(lines: seq<string>, p: Position): nat
    requires InLines(lines, p)
  {
    LineStart(lines, p.line) + p.character
  }

  lemma {:induction false} PositionsIncrease(text: string, i: nat, j: nat)
    requires i < j <= |text|
    ensures Before(PositionAt(text, i), PositionAt(text, j))
  {
    if i + 1 < j {
      PositionsIncrease(text, i, j - 1);
    }
  }

  /** Cutting the joined text at an in-range position cuts the line array at that line and character. */
  lemma CutAt(lines: seq<string>, p: Position)
    requires InLines(lines, p)
    ensures Offset(lines, p) <= |Join(lines, NEWLINE)|
    ensures Join(lines, NEWLINE)[..Offset(lines, p)] == Join(lines[..p.line] + [lines[p.line][..p.character]], NEWLINE)
    ensures Join(lines, NEWLINE)[Offset(lines, p)..]
         == Join([lines[p.line][p.character..]] + lines[p.line + 1..], NEWLINE)
  {
    var left, right := lines[p.line][..p.character], lines[p.line][p.character..];
    JoinGlue(lines[..p.line], left, "", right, lines[p.line + 1..], NEWLINE);
    assert left + "" + right == lines[p.line];
    assert lines[..p.line] + [lines[p.line]] + lines[p.line + 1..] == lines;
    JoinedLength(lines[..p.line], left);
    LineStartOfPrefix(lines, lines[..p.line], p.line);
  }

  lemma {:induction false} JoinedLength(before: seq<string>, last: string)
    ensures |Join(before + [last], NEWLINE)| == LineStart(before, |before|) + |last|
  {
    if before == [] {
      assert before + [last] == [last];
    } else {
      var n := |before| - 1;
      JoinAppend(before, [last], NEWLINE);
      JoinedLength(before[..n], before[n]);
      assert before[..n] + [before[n]] == before;
      LineStartOfPrefix(before, before[..n], n);
    }
  }

  lemma {:induction false} LineStartOfPrefix(a: seq<string>, b: seq<string>, line: nat)
    requires line <= |a| && line <= |b| && a[..line] == b[..line]
    ensures LineStart(a, line) == LineStart(b, line)
  {
    if line > 0 {
      assert a[..line - 1] == a[..line][..line - 1] == b[..line - 1];
      assert a[line - 1] == a[..line][line - 1] == b[line - 1];
      LineStartOfPrefix(a, b, line - 1);
    }
  }

  /** The character in front of a position is the one in front of it on its line, or the newline. */
  lemma CharacterBefore(lines: seq<string>, p: Position)
    requires InLines(lines, p) && p.character > 0
    ensures 0 < Offset(lines, p) <= |Join(lines, NEWLINE)|
    ensures Join(lines, NEWLINE)[Offset(lines, p) - 1] == lines[p.line][p.character - 1]
  {
    var q := Position(p.line, p.character - 1);
    CutAt(lines, p);
    CutAt(lines, q);
    var rest := [lines[p.line][q.character..]] + lines[p.line + 1..];
    JoinHead(rest);
    assert Join(lines, NEWLINE)[Offset(lines, q)] == Join(lines, NEWLINE)[Offset(lines, q)..][0];
  }

  lemma NewlineBefore(lines: seq<string>, p: Position)
    requires InLines(lines, p) && p.character == 0 && p.line > 0
    ensures 0 < Offset(lines, p) <= |Join(lines, NEWLINE)|
    ensures Join(lines, NEWLINE)[Offset(lines, p) - 1] == NEWLINE
  {
    var q := Position(p.line - 1, |lines[p.line - 1]|);
    CutAt(lines, p);
    CutAt(lines, q);
    var rest := [lines[q.line][q.character..]] + lines[p.line..];
    assert rest[0] == "" && rest[1..] == lines[p.line..];
    assert Join(lines, NEWLINE)[Offset(lines, q)] == Join(lines, NEWLINE)[Offset(lines, q)..][0];
  }

  /** Line array to flat text: the gap at `Offset(p)` has position `p`. */
  lemma {:induction false} OffsetHasPosition(text: string, p: Position)
    requires InLines(Split(text, NEWLINE), p)
    ensures Offset(Split(text, NEWLINE), p) <= |text|
    ensures PositionAt(text, Offset(Split(text, NEWLINE), p)) == p
    decreases p.line, p.character
  {
    var lines := Split(text, NEWLINE);
    JoinSplit(text, NEWLINE);
    if p.character > 0 {
      OffsetHasPosition(text, Position(p.line, p.character - 1));
      CharacterBefore(lines, p);
      assert lines[p.line] in lines;
    } else if p.line > 0 {
      OffsetHasPosition(text, Position(p.line - 1, |lines[p.line - 1]|));
      NewlineBefore(lines, p);
    }
  }

  lemma JoinHead(parts: seq<string>)
    requires parts != [] && parts[0] != ""
    ensures Join(parts, NEWLINE) != "" && Join(parts, NEWLINE)[0] == parts[0][0]
  {
  }

  /** Flat text to line array: every gap's position is in range and has that gap's offset. */
  lemma {:induction false} PositionHasOffset(text: string, o: nat)
    requires o <= |text|
    ensures InLines(Split(text, NEWLINE), PositionAt(text, o))
    ensures Offset(Split(text, NEWLINE), PositionAt(text, o)) == o
  {
    var lines := Split(text, NEWLINE);
    JoinSplit(text, NEWLINE);
    if o > 0 {
      PositionHasOffset(text, o - 1);
      var q := PositionAt(text, o - 1);
      CutAt(lines, q);
      assert text[o - 1..] == Join([lines[q.line][q.character..]] + lines[q.line + 1..], NEWLINE);
      assert text[o - 1] == text[o - 1..][0];
      var rest := [lines[q.line][q.character..]] + lines[q.line + 1..];
      assert lines[q.line] in lines;
      if q.character < |lines[q.line]| {
        JoinHead(rest);
        assert text[o - 1] == lines[q.line][q.character];
      } else {
        assert rest[1..] == lines[q.line + 1..];
        assert text[o - 1] == NEWLINE;
      }
    }
  }

  lemma LocatedIsInLines(text: string, p: Position)
    ensures Located(text, p) <==> InLines(Split(text, NEWLINE), p)
  {
    if Located(text, p) {
      var o: nat :| o <= |text| && PositionAt(text, o) == p;
      PositionHasOffset(text, o);
    }
    if InLines(Split(text, NEWLINE), p) {
      OffsetHasPosition(text, p);
    }
  }

  /** Both maps preserve the order. */
  lemma OffsetsOrdered(text: string, p: Position, q: Position)
    requires InLines(Split(text, NEWLINE), p) && InLines(Split(text, NEWLINE), q)
    ensures Before(p, q) <==> Offset(Split(text, NEWLINE), p) < Offset(Split(text, NEWLINE), q)
    ensures AtOrBefore(p, q) <==> Offset(Split(text, NEWLINE), p) <= Offset(Split(text, NEWLINE), q)
  {
    OffsetHasPosition(text, p);
    OffsetHasPosition(text, q);
    var i, j := Offset(Split(text, NEWLINE), p), Offset(Split(text, NEWLINE), q);
    if i < j {
      PositionsIncrease(text, i, j);
    } else if j < i {
      PositionsIncrease(text, j, i);
    }
  }
}
