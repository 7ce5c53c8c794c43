/** Reading a range of a file (getRangeContent in mcpserver/tools/utils.go, from the split into lines on). */
module RangeContent {
  import opened Text
  import opened Positions

  datatype Failure = LineOutOfBounds | WrongOrder | BadCharacter | StartBehindEnd

  datatype Outcome = Content(text: string) | Failed(failure: Failure)

  predicate LinesExist(lines: seq<string>, start: Position, end: Position) {
    start.line < |lines| && end.line < |lines|
  }

  /** Where the code stops: on a later line one character early, unless the end lies past that line. */
  function StopAt(lines: seq<string>, start: Position, end: Position): (r: Position)
    requires LinesExist(lines, start, end)
    ensures InLines(lines, r)
  {
    if start.line == end.line || PastLine(lines, end) || end.character == 0 then Clip(lines, end)
    else Position(end.line, end.character - 1)
  }

  lemma {:induction false} LineStartInSuffix(lines: seq<string>, p: Position, k: nat)
    requires InLines(lines, p) && 1 <= k && p.line + k <= |lines|
    ensures var rest := [lines[p.line][p.character..]] + lines[p.line + 1..];
      k <= |rest| && Offset(lines, p) + LineStart(rest, k) == LineStart(lines, p.line + k)
  {
    if k > 1 {
      LineStartInSuffix(lines, p, k - 1);
    } else {
      assert LineStart([lines[p.line][p.character..]] + lines[p.line + 1..], 0) == 0;
    }
  }

  /** The lines collected between two positions, joined, are the text between their offsets. */
  lemma {:induction false} BetweenLines(lines: seq<string>, a: Position, b: Position)
    requires InLines(lines, a) && InLines(lines, b) && a.line < b.line
    ensures Offset(lines, a) <= Offset(lines, b) <= |Join(lines, NEWLINE)|
    ensures Join([lines[a.line][a.character..]] + lines[a.line + 1..b.line] + [lines[b.line][..b.character]], NEWLINE)
         == Join(lines, NEWLINE)[Offset(lines, a)..Offset(lines, b)]
  {
    var text := Join(lines, NEWLINE);
    var rest := [lines[a.line][a.character..]] + lines[a.line + 1..];
    var k := b.line - a.line;
    CutAt(lines, a);
    CutAt(lines, b);
    LineStartInSuffix(lines, a, k);
    assert rest[k] == lines[b.line];
    CutAt(rest, Position(k, b.character));
    assert rest[..k] == [lines[a.line][a.character..]] + lines[a.line + 1..b.line];
    assert text[Offset(lines, a)..][..Offset(rest, Position(k, b.character))]
        == text[Offset(lines, a)..Offset(lines, b)];
  }

  lemma WithinLine(lines: seq<string>, a: Position, b: Position)
    requires InLines(lines, a) && InLines(lines, b) && a.line == b.line && a.character <= b.character
    ensures Offset(lines, a) <= Offset(lines, b) <= |Join(lines, NEWLINE)|
    ensures lines[a.line][a.character..b.character] == Join(lines, NEWLINE)[Offset(lines, a)..Offset(lines, b)]
  {
    var text := Join(lines, NEWLINE);
    var n := b.character - a.character;
    CutAt(lines, a);
    CutAt(lines, b);
    var rest := [lines[a.line][a.character..]] + lines[a.line + 1..];
    assert rest[0] <= Join(rest, NEWLINE);
    assert text[Offset(lines, a)..][..n] == text[Offset(lines, a)..Offset(lines, b)];
    assert rest[0][..n] == lines[a.line][a.character..b.character];
  }

  /** The branch for a range that ends on a later line; `from` is its clipped start. */
  method CollectLines(lines: seq<string>, from: Position, end: Position, strict: bool) returns (r: Outcome)
    requires InLines(lines, from) && from.line < end.line < |lines|
    ensures strict && PastLine(lines, end) ==> r == Failed(BadCharacter)
    ensures !(strict && PastLine(lines, end)) ==>
      var a, b := Offset(lines, from), Offset(lines, StopAt(lines, from, end));
      a <= b <= |Join(lines, NEWLINE)| && r == Content(Join(lines, NEWLINE)[a..b])
  {
    var first := lines[from.line];
    var result := [if from.character >= |first| then "" else first[from.character..]];
    var i := from.line + 1;
    assert result == [first[from.character..]] + lines[from.line + 1..i] by {
      assert from.character >= |first| ==> first[from.character..] == "";
      assert lines[from.line + 1..i] == [];
    }
    while i < end.line
      invariant from.line < i <= end.line
      invariant result == [first[from.character..]] + lines[from.line + 1..i]
    {
      result := result + [lines[i]];
      i := i + 1;
    }
    var last := lines[end.line];
    BetweenLines(lines, from, StopAt(lines, from, end));
    if end.character > |last| {
      if strict {
        return Failed(BadCharacter);
      }
      assert last[..|last|] == last;
      result := result + [last];
    } else {
      var to := if end.character > 0 then end.character - 1 else end.character;
      result := result + [last[..to]];
    }
    r := Content(Join(result, NEWLINE));
  }

  method GetRangeContent(content: string, start: Position, end: Position, strict: bool) returns (r: Outcome)
    ensures var lines := Split(content, NEWLINE);
      if !LinesExist(lines, start, end) then r == Failed(LineOutOfBounds)
      else if Before(end, start) then r == Failed(WrongOrder)
      else if strict && (PastLine(lines, start) || PastLine(lines, end)) then r == Failed(BadCharacter)
      else
        var from, to := Offset(lines, Clip(lines, start)), Offset(lines, StopAt(lines, start, end));
        from <= to <= |content| && r == Content(content[from..to])
  {
    var lines := Split(content, NEWLINE);
    JoinSplit(content, NEWLINE);
    if start.line >= |lines| || end.line >= |lines| {
      return Failed(LineOutOfBounds);
    }
    if start.line > end.line || (start.line == end.line && start.character > end.character) {
      return Failed(WrongOrder);
    }
    var first := lines[start.line];
    if start.character > |first| && strict {
      return Failed(BadCharacter);
    }
    var from := Min(start.character, |first|);
    if start.line == end.line {
      if end.character > |first| && strict {
        return Failed(BadCharacter);
      }
      var to := Min(end.character, |first|);
      if from > to {
        return Failed(StartBehindEnd);
      }
      WithinLine(lines, Position(start.line, from), Position(start.line, to));
      assert from >= |first| ==> first[from..to] == "";
      r := Content(if from >= |first| then "" else first[from..to]);
    } else {
      r := CollectLines(lines, Position(start.line, from), end, strict);
    }
  }

  /** The clipped start, the stop and the clipped end come in this order. */
  lemma StopsInOrder(lines: seq<string>, start: Position, end: Position)
    requires LinesExist(lines, start, end) && AtOrBefore(start, end)
    ensures AtOrBefore(Clip(lines, start), StopAt(lines, start, end))
    ensures AtOrBefore(StopAt(lines, start, end), Clip(lines, end))
    ensures StopAt(lines, start, end) == Clip(lines, end)
       <==> start.line == end.line || end.character == 0 || PastLine(lines, end)
    ensures Offset(lines, Clip(lines, end)) <= Offset(lines, StopAt(lines, start, end)) + 1
  {
  }

  lemma SlicesAgree(text: string, a: nat, b: nat, c: nat)
    requires a <= b <= c <= |text|
    ensures text[a..b] == text[a..c] <==> b == c
  {
    assert |text[a..b]| == b - a && |text[a..c]| == c - a;
  }

  /**
   The text of a range, its end excluded and both ends clipped to their lines, comes back whole exactly when
   the range ends on its first line, at the start of a line or past the end of one, and otherwise without its
   last character.
   */
  lemma WholeRangeExactly(content: string, start: Position, end: Position)
    requires LinesExist(Split(content, NEWLINE), start, end) && AtOrBefore(start, end)
    ensures var lines := Split(content, NEWLINE);
      var a, b, c := Offset(lines, Clip(lines, start)), Offset(lines, StopAt(lines, start, end)),
                     Offset(lines, Clip(lines, end));
      && a <= b <= c <= |content| && (b != c ==> b + 1 == c)
      && (content[a..b] == content[a..c] <==> start.line == end.line || end.character == 0 || PastLine(lines, end))
  {
    var lines := Split(content, NEWLINE);
    var from, stop, to := Clip(lines, start), StopAt(lines, start, end), Clip(lines, end);
    StopsInOrder(lines, start, end);
    OffsetHasPosition(content, to);
    OffsetsOrdered(content, from, stop);
    OffsetsOrdered(content, stop, to);
    SlicesAgree(content, Offset(lines, from), Offset(lines, stop), Offset(lines, to));
  }
}
