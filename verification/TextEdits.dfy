/**
 Applying a list of text edits to a document (bridge.go, applyTextEditsToContent).

 The code splits the document into lines, exchange-sorts the edits in place so that later
 positions come first, and splices one edit after another into the line array. The specification
 is the one-shot replacement on the flat text: every edit refers to the original document.
 */
module TextEdits {
  import opened Collections
  import opened Text
  import opened Positions

  datatype TextEdit = TextEdit(start: Position, end: Position, newText: string)

  // ----- the specification: all edits at once, on the flat text

  /** What the edits starting at `p` insert, in the order in which they are listed. */
  function InsertedAt(edits: seq<TextEdit>, p: Position): string {
    if edits == [] then ""
    else (if edits[0].start == p then edits[0].newText else "") + InsertedAt(edits[1..], p)
  }

  predicate Removed(edits: seq<TextEdit>, p: Position) {
    exists e :: e in edits && AtOrBefore(e.start, p) && Before(p, e.end)
  }

  /** What the new document has for one gap: the insertion, then the character behind it unless it is removed. */
  function Written(text: string, edits: seq<TextEdit>, gap: nat): string
    requires gap <= |text|
  {
    var p := PositionAt(text, gap);
    InsertedAt(edits, p) + if gap == |text| || Removed(edits, p) then "" else [text[gap]]
  }

  /** The new document from gap `from` on. */
  function ReplacedFrom(text: string, edits: seq<TextEdit>, from: nat): string
    requires from <= |text|
    decreases |text| - from
  {
    Written(text, edits, from) + if from == |text| then "" else ReplacedFrom(text, edits, from + 1)
  }

  /** The edits both of whose ends are positions of the document. */
  ghost function Applicable(text: string, edits: seq<TextEdit>): (r: seq<TextEdit>)
    ensures forall e :: e in r <==> e in edits && Located(text, e.start) && Located(text, e.end)
  {
    if edits == [] then []
    else
      (if Located(text, edits[0].start) && Located(text, edits[0].end) then [edits[0]] else [])
      + Applicable(text, edits[1..])
  }

  ghost function OneShot(text: string, edits: seq<TextEdit>): string {
    ReplacedFrom(text, Applicable(text, edits), 0)
  }

  // ----- what makes a list of edits unambiguous

  predicate DistinctStarts(edits: seq<TextEdit>) {
    forall i, j :: 0 <= i < j < |edits| ==> edits[i].start != edits[j].start
  }

  predicate Overlap(e: TextEdit, f: TextEdit) {
    !AtOrBefore(e.end, f.start) && !AtOrBefore(f.end, e.start)
  }

  predicate Disjoint(edits: seq<TextEdit>) {
    && (forall e :: e in edits ==> AtOrBefore(e.start, e.end))
    && (forall e, f :: e in edits && f in edits && e != f ==> !Overlap(e, f))
  }

  predicate WellFormed(edits: seq<TextEdit>) {
    DistinctStarts(edits) && Disjoint(edits)
  }

  predicate IsInsertion(e: TextEdit) {
    e.start == e.end
  }

  /** Several insertions may share a start; nothing else may. */
  predicate Separate(edits: seq<TextEdit>) {
    && Disjoint(edits)
    && forall i, j :: 0 <= i < j < |edits| && edits[i].start == edits[j].start ==>
         IsInsertion(edits[i]) && IsInsertion(edits[j])
  }

  function Reversed(edits: seq<TextEdit>): seq<TextEdit> {
    if edits == [] then [] else [edits[|edits| - 1]] + Reversed(edits[..|edits| - 1])
  }

  /** Each edit ends where the ones in front of it in the list start, or earlier. */
  predicate Stacked(edits: seq<TextEdit>) {
    && (forall e :: e in edits ==> AtOrBefore(e.start, e.end))
    && (forall i, j :: 0 <= i < j < |edits| ==> AtOrBefore(edits[j].end, edits[i].start))
  }

  /** Both lists insert the same texts at every gap of the document. */
  ghost predicate SameInsertions(text: string, a: seq<TextEdit>, b: seq<TextEdit>) {
    forall o: nat :: o <= |text| ==>
      InsertedAt(Applicable(text, a), PositionAt(text, o)) == InsertedAt(Applicable(text, b), PositionAt(text, o))
  }

  // ----- the code

  predicate Descending(edits: seq<TextEdit>) {
    forall i, j :: 0 <= i < j < |edits| ==> !Before(edits[i].start, edits[j].start)
  }

  /** One step of the application loop; an edit outside the current lines is skipped. */
  function Splice(lines: seq<string>, e: TextEdit): seq<string> {
    if InLines(lines, e.start) && InLines(lines, e.end) then
      lines[..e.start.line]
      + [lines[e.start.line][..e.start.character] + e.newText + lines[e.end.line][e.end.character..]]
      + lines[e.end.line + 1..]
    else lines
  }

  function SpliceAll(lines: seq<string>, edits: seq<TextEdit>): seq<string> {
    if edits == [] then lines
    else Splice(SpliceAll(lines, edits[..|edits| - 1]), edits[|edits| - 1])
  }

  /** One pass of the exchange sort: whoever starts behind `x` changes places with it. */
  function Exchange(x: TextEdit, rest: seq<TextEdit>): (r: (TextEdit, seq<TextEdit>))
    ensures |r.1| == |rest|
    decreases |rest|
  {
    if rest == [] then (x, [])
    else if Before(x.start, rest[0].start) then
      var (last, passed) := Exchange(rest[0], rest[1..]);
      (last, [x] + passed)
    else
      var (last, passed) := Exchange(x, rest[1..]);
      (last, [rest[0]] + passed)
  }

  /** The list as the exchange sort leaves it, the order of equal starts included. */
  function ExchangeSorted(edits: seq<TextEdit>): (r: seq<TextEdit>)
    ensures |r| == |edits|
    decreases |edits|
  {
    if edits == [] then []
    else
      var (last, passed) := Exchange(edits[0], edits[1..]);
      [last] + ExchangeSorted(passed)
  }

  lemma {:induction false} ExchangeStep(x: TextEdit, rest: seq<TextEdit>, front: seq<TextEdit>)
    requires rest != []
    ensures var swap := Before(x.start, rest[0].start);
      var kept, left := if swap then rest[0] else x, if swap then x else rest[0];
      var now, next := Exchange(x, rest), Exchange(kept, rest[1..]);
      now.0 == next.0 && front + now.1 == (front + [left]) + next.1
  {
  }

  /** The inner loop of the exchange sort. */
  method ExchangePass(edits: array<TextEdit>, i: nat)
    requires i < edits.Length
    modifies edits
    ensures edits[..i] == old(edits[..i])
    ensures (edits[i], edits[i + 1..]) == Exchange(old(edits[i]), old(edits[i + 1..]))
  {
    var j := i + 1;
    ghost var (last, passed) := Exchange(edits[i], edits[i + 1..]);
    while j < edits.Length
      invariant i + 1 <= j <= edits.Length && edits[..i] == old(edits[..i])
      invariant Exchange(edits[i], edits[j..]).0 == last
      invariant edits[i + 1..j] + Exchange(edits[i], edits[j..]).1 == passed
    {
      ghost var rest := edits[j..];
      ExchangeStep(edits[i], rest, edits[i + 1..j]);
      ghost var passedBy := edits[i + 1..j];
      if Before(edits[i].start, edits[j].start) {
        edits[i], edits[j] := edits[j], edits[i];
      }
      assert edits[i + 1..j] == passedBy;
      assert edits[j + 1..] == rest[1..];
      assert edits[i + 1..j + 1] == passedBy + [edits[j]];
      j := j + 1;
    }
    assert edits[j..] == [] && Exchange(edits[i], []) == (edits[i], []);
    assert edits[i + 1..j] + [] == edits[i + 1..];
  }

  method SortDescending(edits: array<TextEdit>)
    modifies edits
    ensures edits[..] == ExchangeSorted(old(edits[..]))
  {
    var i := 0;
    while i < edits.Length - 1
      invariant 0 <= i <= edits.Length
      invariant edits[..i] + ExchangeSorted(edits[i..]) == ExchangeSorted(old(edits[..]))
    {
      ghost var front, rest := edits[..i], edits[i..];
      assert rest[0] == edits[i] && rest[1..] == edits[i + 1..];
      ExchangePass(edits, i);
      assert edits[..i + 1] == front + [edits[i]];
      i := i + 1;
    }
    LastStays(edits[i..]);
    assert edits[..i] + edits[i..] == edits[..];
  }

  lemma {:induction false} LastStays(edits: seq<TextEdit>)
    requires |edits| <= 1
    ensures ExchangeSorted(edits) == edits
  {
  }

  /**
   The result is the splice of the sorted edits for every input, the one-shot replacement whenever the edits
   are unambiguous, and that of the reverse of the sorted list whenever each edit ends where the ones sorted
   in front of it start, as when only insertions share a start; positions outside the document are allowed.
   */
  method ApplyTextEdits(content: string, edits: array<TextEdit>) returns (r: string)
    modifies edits
    ensures edits[..] == ExchangeSorted(old(edits[..]))
    ensures r == Join(SpliceAll(Split(content, NEWLINE), edits[..]), NEWLINE)
    ensures WellFormed(old(edits[..])) ==> r == OneShot(content, old(edits[..]))
    ensures Separate(old(edits[..])) ==> Stacked(edits[..])
    ensures Stacked(edits[..]) ==>
      && r == OneShot(content, Reversed(edits[..]))
      && (r == OneShot(content, old(edits[..]))
          <==> SameInsertions(content, old(edits[..]), Reversed(edits[..])))
  {
    JoinSplit(content, NEWLINE);
    if edits.Length == 0 {
      AppliesSorted(content, edits[..]);
      return content;
    }
    SortDescending(edits);
    var lines := ApplySorted(Split(content, NEWLINE), edits);
    AppliesSorted(content, old(edits[..]));
    r := Join(lines, NEWLINE);
  }

  /** The loop over the sorted edits. */
  method ApplySorted(original: seq<string>, edits: array<TextEdit>) returns (lines: seq<string>)
    ensures lines == SpliceAll(original, edits[..])
  {
    lines := original;
    var n := 0;
    while n < edits.Length
      invariant 0 <= n <= edits.Length
      invariant lines == SpliceAll(original, edits[..n])
    {
      var edit := edits[n];
      ghost var before := lines;
      if edit.start.line < |lines| && edit.end.line < |lines| {
        if edit.start.line == edit.end.line {
          var line := lines[edit.start.line];
          if edit.start.character <= |line| && edit.end.character <= |line| {
            var newLine := line[..edit.start.character] + edit.newText + line[edit.end.character..];
            lines := lines[edit.start.line := newLine];
          }
        } else if edit.start.character <= |lines[edit.start.line]| && edit.end.character <= |lines[edit.end.line]| {
          var newLine := lines[edit.start.line][..edit.start.character] + edit.newText
                         + lines[edit.end.line][edit.end.character..];
          var newLines := lines[..edit.start.line] + [newLine];
          if edit.end.line + 1 < |lines| {
            newLines := newLines + lines[edit.end.line + 1..];
          }
          lines := newLines;
        }
      }
      assert lines == Splice(before, edit);
      assert edits[..n + 1][..n] == edits[..n];
      n := n + 1;
    }
    assert edits[..n] == edits[..];
  }

  // ----- permutations of unambiguous edits

  lemma {:induction false} OccursOnce(edits: seq<TextEdit>, e: TextEdit)
    requires forall i, j :: 0 <= i < j < |edits| ==> edits[i] != e || edits[j] != e
    ensures multiset(edits)[e] <= 1
  {
    if edits != [] {
      OccursOnce(edits[1..], e);
      assert edits == [edits[0]] + edits[1..];
      if edits[0] == e {
        assert e !in edits[1..];
      }
    }
  }

  lemma {:induction false} TwiceInMultiset(edits: seq<TextEdit>, i: nat, j: nat)
    requires i < j < |edits| && edits[i] == edits[j]
    ensures multiset(edits)[edits[i]] >= 2
  {
    assert edits == edits[..j] + edits[j..];
    assert edits[i] == edits[..j][i] && edits[j] == edits[j..][0];
    assert edits[i] in multiset(edits[..j]) && edits[i] in multiset(edits[j..]);
  }

  lemma {:induction false} SameMembers(a: seq<TextEdit>, b: seq<TextEdit>)
    requires multiset(a) == multiset(b)
    ensures forall e :: e in a <==> e in b
  {
    assert forall e :: e in a <==> e in multiset(a);
    assert forall e :: e in b <==> e in multiset(b);
  }

  lemma {:induction false} PermutationWellFormed(a: seq<TextEdit>, b: seq<TextEdit>)
    requires WellFormed(a) && multiset(a) == multiset(b)
    ensures WellFormed(b)
  {
    SameMembers(a, b);
    forall i, j | 0 <= i < j < |b|
      ensures b[i].start != b[j].start
    {
      assert b[i] in a && b[j] in a;
      if b[i] == b[j] {
        TwiceInMultiset(b, i, j);
        OccursOnce(a, b[i]);
      }
    }
  }

  lemma {:induction false} InsertedByOne(edits: seq<TextEdit>, p: Position, e: TextEdit)
    requires DistinctStarts(edits) && e in edits && e.start == p
    ensures InsertedAt(edits, p) == e.newText
  {
    if edits[0] == e {
      InsertedByNone(edits[1..], p);
    } else {
      InsertedByOne(edits[1..], p, e);
    }
  }

  lemma {:induction false} InsertedByNone(edits: seq<TextEdit>, p: Position)
    requires forall e :: e in edits ==> e.start != p
    ensures InsertedAt(edits, p) == ""
  {
    if edits != [] {
      assert edits[0] in edits;
      InsertedByNone(edits[1..], p);
    }
  }

  lemma {:induction false} ApplicableDistinct(text: string, edits: seq<TextEdit>)
    requires DistinctStarts(edits)
    ensures DistinctStarts(Applicable(text, edits))
  {
    if edits != [] {
      ApplicableDistinct(text, edits[1..]);
    }
  }

  lemma {:induction false} WrittenByMembers(text: string, a: seq<TextEdit>, b: seq<TextEdit>, gap: nat)
    requires gap <= |text| && DistinctStarts(a) && DistinctStarts(b)
    requires forall e :: e in a <==> e in b
    ensures Written(text, a, gap) == Written(text, b, gap)
  {
    var p := PositionAt(text, gap);
    if e :| e in a && e.start == p {
      InsertedByOne(a, p, e);
      InsertedByOne(b, p, e);
    } else {
      InsertedByNone(a, p);
      InsertedByNone(b, p);
    }
  }

  lemma {:induction false} ReplacedByMembers(text: string, a: seq<TextEdit>, b: seq<TextEdit>, from: nat)
    requires from <= |text| && DistinctStarts(a) && DistinctStarts(b)
    requires forall e :: e in a <==> e in b
    ensures ReplacedFrom(text, a, from) == ReplacedFrom(text, b, from)
    decreases |text| - from
  {
    WrittenByMembers(text, a, b, from);
    if from < |text| {
      ReplacedByMembers(text, a, b, from + 1);
    }
  }

  /** The specified document does not depend on the order in which unambiguous edits are listed. */
  lemma {:induction false} OneShotIgnoresOrder(text: string, a: seq<TextEdit>, b: seq<TextEdit>)
    requires WellFormed(a) && multiset(a) == multiset(b)
    ensures OneShot(text, a) == OneShot(text, b)
  {
    PermutationWellFormed(a, b);
    SameMembers(a, b);
    ApplicableDistinct(text, a);
    ApplicableDistinct(text, b);
    ReplacedByMembers(text, Applicable(text, a), Applicable(text, b), 0);
  }

  // ----- one splice is one replacement, for any lines, even lines that contain newlines

  lemma {:induction false} SpliceReplaces(lines: seq<string>, e: TextEdit)
    requires InLines(lines, e.start) && InLines(lines, e.end)
    ensures Offset(lines, e.start) <= |Join(lines, NEWLINE)| && Offset(lines, e.end) <= |Join(lines, NEWLINE)|
    ensures Join(Splice(lines, e), NEWLINE)
         == Join(lines, NEWLINE)[..Offset(lines, e.start)] + e.newText + Join(lines, NEWLINE)[Offset(lines, e.end)..]
  {
    CutAt(lines, e.start);
    CutAt(lines, e.end);
    JoinGlue(lines[..e.start.line], lines[e.start.line][..e.start.character], e.newText,
             lines[e.end.line][e.end.character..], lines[e.end.line + 1..], NEWLINE);
  }

  // ----- what has been applied so far leaves everything before the last applied start alone

  ghost predicate UntouchedBefore(lines: seq<string>, original: seq<string>, p: Position) {
    && InLines(original, p) && InLines(lines, p)
    && lines[..p.line] == original[..p.line]
    && lines[p.line][..p.character] == original[p.line][..p.character]
  }

  lemma {:induction false} RangeUnchanged(lines: seq<string>, original: seq<string>, p: Position, q: Position)
    requires UntouchedBefore(lines, original, p) && AtOrBefore(q, p)
    ensures InLines(lines, q) <==> InLines(original, q)
    ensures InLines(lines, q) ==> Offset(lines, q) == Offset(original, q)
  {
    if q.line < p.line {
      assert lines[q.line] == lines[..p.line][q.line] == original[q.line];
    }
    assert lines[..q.line] == lines[..p.line][..q.line] == original[..q.line];
    LineStartOfPrefix(lines, original, q.line);
  }

  lemma {:induction false} SpliceUntouched(lines: seq<string>, original: seq<string>, p: Position, e: TextEdit)
    requires UntouchedBefore(lines, original, p)
    requires AtOrBefore(e.start, p) && InLines(lines, e.start) && InLines(lines, e.end)
    ensures UntouchedBefore(Splice(lines, e), original, e.start)
  {
    var q := e.start;
    RangeUnchanged(lines, original, p, q);
    assert lines[..q.line] == lines[..p.line][..q.line] == original[..q.line];
    if q.line < p.line {
      assert lines[q.line] == lines[..p.line][q.line] == original[q.line];
    } else {
      assert lines[q.line][..q.character] == lines[q.line][..p.character][..q.character];
      assert original[q.line][..q.character] == original[q.line][..p.character][..q.character];
    }
    assert Splice(lines, e)[..q.line] == lines[..q.line];
    assert Splice(lines, e)[q.line][..q.character] == lines[q.line][..q.character];
  }

  // ----- the specification, unrolled one edit at a time

  ghost predicate AllFrom(text: string, edits: seq<TextEdit>, from: nat)
    requires from <= |text|
  {
    forall e :: e in edits ==> AtOrBefore(PositionAt(text, from), e.start)
  }

  lemma {:induction false} WrittenBeforeAll(text: string, edits: seq<TextEdit>, gap: nat, to: nat)
    requires gap < to <= |text| && AllFrom(text, edits, to)
    ensures InsertedAt(edits, PositionAt(text, gap)) == ""
    ensures Written(text, edits, gap) == [text[gap]]
  {
    var p, q := PositionAt(text, gap), PositionAt(text, to);
    PositionsIncrease(text, gap, to);
    forall e | e in edits
      ensures Before(p, e.start)
    {
      assert AtOrBefore(q, e.start);
    }
    InsertedByNone(edits, p);
  }

  function KeptAt(text: string, end: nat, gap: nat): string
    requires gap < |text|
  {
    if gap < end then "" else [text[gap]]
  }

  /** The characters of gaps `from` to `to` that are not in front of gap `end`. */
  function Kept(text: string, end: nat, from: nat, to: nat): string
    requires from <= to <= |text|
    decreases |text| - from
  {
    if from == to then "" else KeptAt(text, end, from) + Kept(text, end, from + 1, to)
  }

  lemma {:induction false} KeptIsSlice(text: string, end: nat, from: nat, to: nat)
    requires from <= to <= |text| && end <= to
    ensures Kept(text, end, from, to) == text[(if from < end then end else from)..to]
    decreases |text| - from
  {
    if from < to {
      KeptIsSlice(text, end, from + 1, to);
      if end <= from {
        assert text[from..to] == [text[from]] + text[from + 1..to];
      }
    }
  }

  lemma {:induction false} CutInFront(text: string, to: nat, rest: string, at: nat)
    requires at <= to <= |text|
    ensures (text[..to] + rest)[..at] == text[..at]
    ensures (text[..to] + rest)[at..] == text[at..to] + rest
  {
  }

  lemma {:induction false} Prepend(all: string, next: string, head: string, kept: string, tail: string, rest: string)
    requires all == head + next && next == tail + rest && kept == head + tail
    ensures all == kept + rest
  {
  }

  /** From gap `from` on, the edits keep what lies behind `end` up to gap `to`, and then write `rest`. */
  ghost predicate KeepsUntil(text: string, edits: seq<TextEdit>, from: nat, end: nat, to: nat, rest: string) {
    from <= to <= |text| && ReplacedFrom(text, edits, from) == Kept(text, end, from, to) + rest
  }

  /** One more gap in front of a stretch whose result is known. */
  lemma {:induction false} ReplacedGap(text: string, edits: seq<TextEdit>, gap: nat, end: nat, to: nat, rest: string)
    requires gap < to <= |text| && Written(text, edits, gap) == KeptAt(text, end, gap)
    requires KeepsUntil(text, edits, gap + 1, end, to, rest)
    ensures KeepsUntil(text, edits, gap, end, to, rest)
  {
    Prepend(ReplacedFrom(text, edits, gap), ReplacedFrom(text, edits, gap + 1), Written(text, edits, gap),
            Kept(text, end, gap, to), Kept(text, end, gap + 1, to), rest);
  }

  lemma {:induction false} ReplacedGaps(text: string, edits: seq<TextEdit>, from: nat, end: nat, to: nat, rest: string)
    requires from <= to <= |text| && KeepsUntil(text, edits, to, end, to, rest)
    requires forall gap: nat {:trigger Written(text, edits, gap)} :: from <= gap < to ==>
               Written(text, edits, gap) == KeptAt(text, end, gap)
    ensures KeepsUntil(text, edits, from, end, to, rest)
    decreases |text| - from
  {
    if from < to {
      ReplacedGaps(text, edits, from + 1, end, to, rest);
      ReplacedGap(text, edits, from, end, to, rest);
    }
  }

  /** Where no edit starts or reaches, the text is copied. */
  lemma {:induction false} ReplacedCopies(text: string, edits: seq<TextEdit>, from: nat, to: nat)
    requires from <= to <= |text| && AllFrom(text, edits, to)
    ensures KeepsUntil(text, edits, from, 0, to, ReplacedFrom(text, edits, to))
  {
    forall gap: nat | from <= gap < to
      ensures Written(text, edits, gap) == KeptAt(text, 0, gap)
    {
      WrittenBeforeAll(text, edits, gap, to);
    }
    ReplacedGaps(text, edits, from, 0, to, ReplacedFrom(text, edits, to));
  }

  lemma {:induction false} SeenFirst(edits: seq<TextEdit>, e: TextEdit, p: Position)
    ensures InsertedAt([e] + edits, p) == (if e.start == p then e.newText else "") + InsertedAt(edits, p)
    ensures Removed([e] + edits, p) <==> Removed(edits, p) || (AtOrBefore(e.start, p) && Before(p, e.end))
  {
    assert ([e] + edits)[1..] == edits;
    assert forall f :: f in [e] + edits <==> f in edits || f == e;
  }

  lemma {:induction false} WrittenBeyond(text: string, edits: seq<TextEdit>, e: TextEdit, gap: nat)
    requires gap <= |text|
    requires Before(e.start, PositionAt(text, gap)) && AtOrBefore(e.end, PositionAt(text, gap))
    ensures Written(text, [e] + edits, gap) == Written(text, edits, gap)
  {
    SeenFirst(edits, e, PositionAt(text, gap));
  }

  /** An additional edit is not seen from gaps after its start and at or after its end. */
  lemma {:induction false} ReplacedBeyond(text: string, edits: seq<TextEdit>, e: TextEdit, from: nat)
    requires from <= |text|
    requires Before(e.start, PositionAt(text, from)) && AtOrBefore(e.end, PositionAt(text, from))
    ensures ReplacedFrom(text, [e] + edits, from) == ReplacedFrom(text, edits, from)
    decreases |text| - from
  {
    WrittenBeyond(text, edits, e, from);
    if from < |text| {
      PositionsIncrease(text, from, from + 1);
      ReplacedBeyond(text, edits, e, from + 1);
    }
  }

  /** What an edit in front of all others does to the gaps before them. */
  lemma {:induction false} WrittenByEarliest(text: string, edits: seq<TextEdit>, e: TextEdit, start: nat, end: nat,
                                             gap: nat, to: nat)
    requires start <= gap < to <= |text| && end <= to && AllFrom(text, edits, to)
    requires e.start == PositionAt(text, start) && e.end == PositionAt(text, end)
    ensures Written(text, [e] + edits, gap)
         == (if gap == start then e.newText else "") + if gap < end then "" else [text[gap]]
  {
    var p := PositionAt(text, gap);
    WrittenBeforeAll(text, edits, gap, to);
    SeenFirst(edits, e, p);
    if start < gap { PositionsIncrease(text, start, gap); }
    if gap < end { PositionsIncrease(text, gap, end); }
    if end < gap { PositionsIncrease(text, end, gap); }
  }

  /** The characters the additional edit covers vanish, those from its end to `to` are copied. */
  lemma {:induction false} ReplacedCovered(text: string, edits: seq<TextEdit>, e: TextEdit, start: nat, end: nat,
                                           from: nat, to: nat)
    requires start < from <= to <= |text| && end <= to && AllFrom(text, edits, to)
    requires e.start == PositionAt(text, start) && e.end == PositionAt(text, end)
    ensures KeepsUntil(text, [e] + edits, from, end, to, ReplacedFrom(text, edits, to))
  {
    CoveredEnd(text, edits, e, start, end, to);
    forall gap: nat | from <= gap < to
      ensures Written(text, [e] + edits, gap) == KeptAt(text, end, gap)
    {
      WrittenByEarliest(text, edits, e, start, end, gap, to);
    }
    ReplacedGaps(text, [e] + edits, from, end, to, ReplacedFrom(text, edits, to));
  }

  lemma {:induction false} CoveredEnd(text: string, edits: seq<TextEdit>, e: TextEdit, start: nat, end: nat, to: nat)
    requires start < to <= |text| && end <= to
    requires e.start == PositionAt(text, start) && e.end == PositionAt(text, end)
    ensures KeepsUntil(text, [e] + edits, to, end, to, ReplacedFrom(text, edits, to))
  {
    PositionsIncrease(text, start, to);
    if end < to { PositionsIncrease(text, end, to); }
    ReplacedBeyond(text, edits, e, to);
    Prepend(ReplacedFrom(text, edits, to), ReplacedFrom(text, edits, to), "", "", "", ReplacedFrom(text, edits, to));
  }

  /** Adding an edit `[start, end)` in front of all others, which start at gap `to` or later. */
  lemma {:induction false} ReplacedWithEarlier(text: string, edits: seq<TextEdit>, e: TextEdit, start: nat, end: nat,
                                               to: nat)
    requires start <= end <= to <= |text| && AllFrom(text, edits, to)
    requires e.start == PositionAt(text, start) && e.end == PositionAt(text, end)
    ensures ReplacedFrom(text, [e] + edits, start)
         == e.newText + (Kept(text, end, start, to) + ReplacedFrom(text, edits, to))
  {
    if start == to {
      ReplacedAtTie(text, edits, e, start);
      NothingBetween(e.newText, Kept(text, end, start, to), ReplacedFrom(text, edits, to));
    } else {
      ReplacedAtStart(text, edits, e, start, end, to);
    }
  }

  lemma {:induction false} WrittenAtTie(text: string, edits: seq<TextEdit>, e: TextEdit, at: nat)
    requires at <= |text| && e.start == e.end == PositionAt(text, at)
    ensures Written(text, [e] + edits, at) == e.newText + Written(text, edits, at)
  {
    SeenFirst(edits, e, e.start);
  }

  lemma {:induction false} NothingBetween(left: string, middle: string, right: string)
    requires middle == ""
    ensures left + (middle + right) == left + right
  {
  }

  /** An insertion comes in front of what the others insert at the same gap. */
  lemma {:induction false} ReplacedAtTie(text: string, edits: seq<TextEdit>, e: TextEdit, at: nat)
    requires at <= |text| && e.start == e.end == PositionAt(text, at)
    ensures ReplacedFrom(text, [e] + edits, at) == e.newText + ReplacedFrom(text, edits, at)
  {
    WrittenAtTie(text, edits, e, at);
    if at < |text| {
      PositionsIncrease(text, at, at + 1);
      ReplacedBeyond(text, edits, e, at + 1);
      Regroup(e.newText, Written(text, edits, at), ReplacedFrom(text, edits, at + 1));
    }
  }

  lemma {:induction false} ReplacedAtStart(text: string, edits: seq<TextEdit>, e: TextEdit, start: nat, end: nat,
                                           to: nat)
    requires start <= end <= to <= |text| && start < to && AllFrom(text, edits, to)
    requires e.start == PositionAt(text, start) && e.end == PositionAt(text, end)
    ensures ReplacedFrom(text, [e] + edits, start)
         == e.newText + (Kept(text, end, start, to) + ReplacedFrom(text, edits, to))
  {
    WrittenByEarliest(text, edits, e, start, end, start, to);
    ReplacedCovered(text, edits, e, start, end, start + 1, to);
    StartGap(ReplacedFrom(text, [e] + edits, start), ReplacedFrom(text, [e] + edits, start + 1), e.newText,
             if start < end then "" else [text[start]], Kept(text, end, start, to),
             Kept(text, end, start + 1, to), ReplacedFrom(text, edits, to));
  }

  lemma {:induction false} StartGap(all: string, next: string, inserted: string, head: string, kept: string,
                                    tail: string, rest: string)
    requires all == (inserted + head) + next && next == tail + rest && kept == head + tail
    ensures all == inserted + (kept + rest)
  {
    Regroup(inserted, head, next);
    Prepend(head + next, next, head, kept, tail, rest);
  }

  // ----- the invariant of the application loop, and the theorem

  /** Offset and position of the start of the edit applied last, the first of `applied`, or the end of the text. */
  ghost function Frontier(text: string, applied: seq<TextEdit>): (o: nat)
    requires applied != [] ==> Located(text, applied[0].start)
    ensures o <= |text|
    ensures applied != [] ==> PositionAt(text, o) == applied[0].start
  {
    if applied == [] then |text|
    else
      var o: nat :| o <= |text| && PositionAt(text, o) == applied[0].start;
      o
  }

  ghost predicate Progress(text: string, done: seq<TextEdit>) {
    var original := Split(text, NEWLINE);
    var lines, applied := SpliceAll(original, done), Applicable(text, Reversed(done));
    && (applied == [] ==> lines == original)
    && var frontier := Frontier(text, applied);
    && AllFrom(text, applied, frontier)
    && UntouchedBefore(lines, original, PositionAt(text, frontier))
    && Join(lines, NEWLINE) == text[..frontier] + ReplacedFrom(text, applied, frontier)
  }

  lemma {:induction false} OneMore(text: string, done: seq<TextEdit>, e: TextEdit)
    ensures Reversed(done + [e]) == [e] + Reversed(done)
    ensures Applicable(text, [e] + Reversed(done))
         == (if Located(text, e.start) && Located(text, e.end) then [e] else []) + Applicable(text, Reversed(done))
    ensures SpliceAll(Split(text, NEWLINE), done + [e]) == Splice(SpliceAll(Split(text, NEWLINE), done), e)
  {
    assert (done + [e])[..|done|] == done;
    assert ([e] + Reversed(done))[1..] == Reversed(done);
  }

  lemma {:induction false} ReversedMembers(edits: seq<TextEdit>)
    ensures multiset(Reversed(edits)) == multiset(edits)
  {
    if edits != [] {
      ReversedMembers(edits[..|edits| - 1]);
      assert edits == edits[..|edits| - 1] + [edits[|edits| - 1]];
    }
  }

  lemma {:induction false} AppliedIsDone(text: string, done: seq<TextEdit>)
    ensures forall f :: f in Applicable(text, Reversed(done)) ==> f in done
  {
    ReversedMembers(done);
    SameMembers(Reversed(done), done);
  }

  lemma {:induction false} ProgressInitially(text: string)
    ensures Progress(text, [])
  {
    JoinSplit(text, NEWLINE);
    PositionHasOffset(text, |text|);
  }

  lemma {:induction false} ProgressStep(text: string, done: seq<TextEdit>, e: TextEdit)
    requires Progress(text, done)
    requires AtOrBefore(e.start, e.end)
    requires forall f :: f in done ==> AtOrBefore(e.end, f.start)
    ensures Progress(text, done + [e])
  {
    var original := Split(text, NEWLINE);
    var lines, applied := SpliceAll(original, done), Applicable(text, Reversed(done));
    var frontier := Frontier(text, applied);
    var p := PositionAt(text, frontier);
    LocatedIsInLines(text, e.start);
    LocatedIsInLines(text, e.end);
    AppliedIsDone(text, done);
    if InLines(original, e.start) && InLines(original, e.end) {
      if applied == [] {
        BeforeEnd(text, e.end);
      }
      ProgressApply(text, done, e, frontier);
    } else {
      if applied != [] {
        RangeUnchanged(lines, original, p, e.start);
        RangeUnchanged(lines, original, p, e.end);
      }
      OneMore(text, done, e);
      assert [] + applied == applied;
    }
  }

  lemma {:induction false} BeforeEnd(text: string, p: Position)
    requires InLines(Split(text, NEWLINE), p)
    ensures AtOrBefore(p, PositionAt(text, |text|))
  {
    OffsetHasPosition(text, p);
    var o := Offset(Split(text, NEWLINE), p);
    if o < |text| {
      PositionsIncrease(text, o, |text|);
    }
  }

  lemma {:induction false} FrontierIsStart(text: string, applied: seq<TextEdit>, start: nat)
    requires applied != [] && start <= |text| && PositionAt(text, start) == applied[0].start
    ensures Frontier(text, applied) == start
  {
    var next := Frontier(text, applied);
    if next < start { PositionsIncrease(text, next, start); }
    if start < next { PositionsIncrease(text, start, next); }
  }

  /** The new content of the document after one more edit, as a string equation. */
  lemma {:induction false} ProgressText(text: string, lines: seq<string>, applied: seq<TextEdit>, e: TextEdit,
                                        start: nat, end: nat, frontier: nat)
    requires start <= end <= frontier <= |text| && AllFrom(text, applied, frontier)
    requires e.start == PositionAt(text, start) && e.end == PositionAt(text, end)
    requires InLines(lines, e.start) && InLines(lines, e.end)
    requires start == Offset(lines, e.start) && end == Offset(lines, e.end)
    requires Join(lines, NEWLINE) == text[..frontier] + ReplacedFrom(text, applied, frontier)
    ensures Join(Splice(lines, e), NEWLINE) == text[..start] + ReplacedFrom(text, [e] + applied, start)
  {
    var rest := ReplacedFrom(text, applied, frontier);
    SpliceReplaces(lines, e);
    CutInFront(text, frontier, rest, start);
    CutInFront(text, frontier, rest, end);
    ReplacedWithEarlier(text, applied, e, start, end, frontier);
    KeptIsSlice(text, end, start, frontier);
    Regroup(text[..start], e.newText, text[end..frontier] + rest);
  }

  lemma {:induction false} ProgressApply(text: string, done: seq<TextEdit>, e: TextEdit, frontier: nat)
    requires Progress(text, done) && frontier == Frontier(text, Applicable(text, Reversed(done)))
    requires InLines(Split(text, NEWLINE), e.start) && InLines(Split(text, NEWLINE), e.end)
    requires AtOrBefore(e.start, e.end) && AtOrBefore(e.end, PositionAt(text, frontier))
    requires forall f :: f in Applicable(text, Reversed(done)) ==> AtOrBefore(e.end, f.start)
    ensures Progress(text, done + [e])
  {
    var original := Split(text, NEWLINE);
    var lines, applied := SpliceAll(original, done), Applicable(text, Reversed(done));
    var p := PositionAt(text, frontier);
    PositionHasOffset(text, frontier);
    RangeUnchanged(lines, original, p, e.start);
    RangeUnchanged(lines, original, p, e.end);
    var start, end := Offset(original, e.start), Offset(original, e.end);
    OffsetHasPosition(text, e.start);
    OffsetHasPosition(text, e.end);
    OffsetsOrdered(text, e.start, e.end);
    OffsetsOrdered(text, e.end, p);
    OffsetsOrdered(text, e.start, p);
    ProgressText(text, lines, applied, e, start, end, frontier);
    SpliceUntouched(lines, original, p, e);
    LocatedIsInLines(text, e.start);
    LocatedIsInLines(text, e.end);
    ProgressExtend(text, done, e, start);
  }

  lemma {:induction false} ProgressExtend(text: string, done: seq<TextEdit>, e: TextEdit, start: nat)
    requires start <= |text| && PositionAt(text, start) == e.start && AtOrBefore(e.start, e.end)
    requires Located(text, e.start) && Located(text, e.end)
    requires forall f :: f in Applicable(text, Reversed(done)) ==> AtOrBefore(e.end, f.start)
    requires var original := Split(text, NEWLINE);
             var lines := Splice(SpliceAll(original, done), e);
             && UntouchedBefore(lines, original, e.start)
             && Join(lines, NEWLINE)
                == text[..start] + ReplacedFrom(text, [e] + Applicable(text, Reversed(done)), start)
    ensures Progress(text, done + [e])
  {
    OneMore(text, done, e);
    FrontierIsStart(text, [e] + Applicable(text, Reversed(done)), start);
  }

  lemma {:induction false} ProgressTo(text: string, done: seq<TextEdit>, e: TextEdit, next: seq<TextEdit>)
    requires Progress(text, done) && next == done + [e]
    requires AtOrBefore(e.start, e.end)
    requires forall f :: f in done ==> AtOrBefore(e.end, f.start)
    ensures Progress(text, next)
  {
    ProgressStep(text, done, e);
  }

  lemma {:induction false} ProgressAll(text: string, edits: seq<TextEdit>, n: nat)
    requires Stacked(edits) && n <= |edits|
    ensures Progress(text, edits[..n])
  {
    if n == 0 {
      ProgressInitially(text);
    } else {
      ProgressAll(text, edits, n - 1);
      NextPrefix(edits, n - 1);
      ProgressTo(text, edits[..n - 1], edits[n - 1], edits[..n]);
    }
  }

  lemma {:induction false} NextPrefix(edits: seq<TextEdit>, n: nat)
    requires n < |edits|
    ensures edits[..n] + [edits[n]] == edits[..n + 1] && edits[n] in edits
  {
  }

  /**
   Splicing a stacked list into the lines is the one-shot replacement by the list read backwards. Edits that
   reach outside the document change nothing, although the code tests their bounds against lines that other
   edits have already changed.
   */
  lemma {:induction false} StackedIsOneShot(text: string, edits: seq<TextEdit>)
    requires Stacked(edits)
    ensures Join(SpliceAll(Split(text, NEWLINE), edits), NEWLINE) == OneShot(text, Reversed(edits))
  {
    ProgressAll(text, edits, |edits|);
    assert edits[..|edits|] == edits;
    var applied := Applicable(text, Reversed(edits));
    var frontier := Frontier(text, applied);
    ReplacedCopies(text, applied, 0, frontier);
    KeptIsSlice(text, 0, 0, frontier);
  }

  /** The descending order of separate edits is stacked. */
  lemma {:induction false} SortedIsStacked(edits: seq<TextEdit>, sorted: seq<TextEdit>)
    requires Separate(edits) && multiset(sorted) == multiset(edits) && Descending(sorted)
    ensures Stacked(sorted)
  {
    SameMembers(edits, sorted);
    forall i, j | 0 <= i < j < |sorted|
      ensures AtOrBefore(sorted[j].end, sorted[i].start)
    {
      var e, f := sorted[i], sorted[j];
      assert e in edits && f in edits && !Before(e.start, f.start);
      if e.start == f.start {
        TiesInsert(edits, sorted, i, j);
      } else {
        assert !Overlap(e, f);
      }
    }
  }

  lemma {:induction false} TiesInsert(edits: seq<TextEdit>, sorted: seq<TextEdit>, i: nat, j: nat)
    requires Separate(edits) && multiset(sorted) == multiset(edits)
    requires i < j < |sorted| && sorted[i].start == sorted[j].start
    ensures IsInsertion(sorted[j])
  {
    SameMembers(edits, sorted);
    var e, f := sorted[i], sorted[j];
    assert e in edits && f in edits;
    if e == f {
      TwiceInMultiset(sorted, i, j);
      if !IsInsertion(e) {
        OccursOnce(edits, e);
      }
    } else {
      var a :| 0 <= a < |edits| && edits[a] == e;
      var b :| 0 <= b < |edits| && edits[b] == f;
      assert a < b || b < a;
    }
  }

  /** For unambiguous edits in any order, splicing the descending order into the lines is the one-shot replacement. */
  lemma {:induction false} SortedApplyIsOneShot(text: string, edits: seq<TextEdit>, sorted: seq<TextEdit>)
    requires WellFormed(edits) && multiset(sorted) == multiset(edits) && Descending(sorted)
    ensures Join(SpliceAll(Split(text, NEWLINE), sorted), NEWLINE) == OneShot(text, edits)
  {
    SortedIsStacked(edits, sorted);
    StackedIsOneShot(text, sorted);
    ReversedMembers(sorted);
    OneShotIgnoresOrder(text, edits, Reversed(sorted));
  }

  // ----- the exchange sort

  lemma {:induction false} ExchangeKeeps(x: TextEdit, rest: seq<TextEdit>)
    ensures var (last, passed) := Exchange(x, rest);
      multiset([last] + passed) == multiset([x] + rest)
      && !Before(last.start, x.start) && forall e :: e in passed ==> !Before(last.start, e.start)
    decreases |rest|
  {
    if rest != [] {
      assert rest == [rest[0]] + rest[1..];
      ExchangeKeeps(if Before(x.start, rest[0].start) then rest[0] else x, rest[1..]);
    }
  }

  /** The exchange sort yields a permutation in which no later edit starts behind an earlier one. */
  lemma {:induction false} ExchangeSorts(edits: seq<TextEdit>)
    ensures Descending(ExchangeSorted(edits)) && multiset(ExchangeSorted(edits)) == multiset(edits)
    decreases |edits|
  {
    if edits != [] {
      var (last, passed) := Exchange(edits[0], edits[1..]);
      assert edits == [edits[0]] + edits[1..];
      ExchangeKeeps(edits[0], edits[1..]);
      ExchangeSorts(passed);
      SameMembers(passed, ExchangeSorted(passed));
      assert forall e :: e in ExchangeSorted(passed) ==> !Before(last.start, e.start);
    }
  }

  /** A list that is descending already is left as it is, ties included. */
  lemma {:induction false} ExchangeLeavesSorted(edits: seq<TextEdit>)
    requires Descending(edits)
    ensures ExchangeSorted(edits) == edits
  {
    if edits != [] {
      NothingToExchange(edits[0], edits[1..]);
      ExchangeLeavesSorted(edits[1..]);
    }
  }

  lemma {:induction false} NothingToExchange(x: TextEdit, rest: seq<TextEdit>)
    requires forall e :: e in rest ==> !Before(x.start, e.start)
    ensures Exchange(x, rest) == (x, rest)
  {
    if rest != [] {
      assert rest[0] in rest && rest == [rest[0]] + rest[1..];
      NothingToExchange(x, rest[1..]);
    }
  }

  /** What the sorted list does, whatever its ties. */
  lemma {:induction false} AppliesSorted(text: string, edits: seq<TextEdit>)
    ensures var sorted := ExchangeSorted(edits);
      var r := Join(SpliceAll(Split(text, NEWLINE), sorted), NEWLINE);
      && (WellFormed(edits) ==> r == OneShot(text, edits))
      && (Separate(edits) ==> Stacked(sorted))
      && (Stacked(sorted) ==> r == OneShot(text, Reversed(sorted))
                              && (r == OneShot(text, edits) <==> SameInsertions(text, edits, Reversed(sorted))))
  {
    var sorted := ExchangeSorted(edits);
    ExchangeSorts(edits);
    if WellFormed(edits) {
      SortedApplyIsOneShot(text, edits, sorted);
    }
    if Separate(edits) {
      SortedIsStacked(edits, sorted);
    }
    if Stacked(sorted) {
      StackedIsOneShot(text, sorted);
      ReversedMembers(sorted);
      OneShotsAgree(text, edits, Reversed(sorted));
    }
  }

  // ----- equal starts: where the code and the one-shot replacement part

  lemma {:induction false} InsertedJoin(a: seq<TextEdit>, b: seq<TextEdit>, p: Position)
    ensures InsertedAt(a + b, p) == InsertedAt(a, p) + InsertedAt(b, p)
  {
    if a == [] {
      assert a + b == b;
    } else {
      assert (a + b)[1..] == a[1..] + b;
      InsertedJoin(a[1..], b, p);
    }
  }

  lemma {:induction false} ApplicableJoin(text: string, a: seq<TextEdit>, b: seq<TextEdit>)
    ensures Applicable(text, a + b) == Applicable(text, a) + Applicable(text, b)
  {
    if a == [] {
      assert a + b == b;
    } else {
      assert (a + b)[1..] == a[1..] + b;
      ApplicableJoin(text, a[1..], b);
    }
  }

  ghost function InsertedLength(text: string, edits: seq<TextEdit>, p: Position): nat {
    |InsertedAt(Applicable(text, edits), p)|
  }

  lemma {:induction false} InsertedLengthJoin(text: string, a: seq<TextEdit>, b: seq<TextEdit>, p: Position)
    ensures InsertedLength(text, a + b, p) == InsertedLength(text, a, p) + InsertedLength(text, b, p)
  {
    ApplicableJoin(text, a, b);
    InsertedJoin(Applicable(text, a), Applicable(text, b), p);
  }

  lemma {:induction false} InsertedLengthMoves(text: string, front: seq<TextEdit>, e: TextEdit, back: seq<TextEdit>,
                                               p: Position)
    ensures InsertedLength(text, front + ([e] + back), p)
         == InsertedLength(text, [e], p) + InsertedLength(text, front + back, p)
  {
    InsertedLengthJoin(text, front, [e] + back, p);
    InsertedLengthJoin(text, [e], back, p);
    InsertedLengthJoin(text, front, back, p);
  }

  lemma {:induction false} Occurrence(a: seq<TextEdit>, b: seq<TextEdit>)
      returns (front: seq<TextEdit>, back: seq<TextEdit>)
    requires a != [] && multiset(a) == multiset(b)
    ensures b == front + ([a[0]] + back) && multiset(front + back) == multiset(a[1..])
  {
    assert a[0] in multiset(b);
    var i :| 0 <= i < |b| && b[i] == a[0];
    front, back := b[..i], b[i + 1..];
    assert a == [a[0]] + a[1..] && b == front + ([a[0]] + back);
    TakenOut(a[0], a[1..], front, back);
  }

  lemma {:induction false} TakenOut(e: TextEdit, rest: seq<TextEdit>, front: seq<TextEdit>, back: seq<TextEdit>)
    requires multiset([e] + rest) == multiset(front + ([e] + back))
    ensures multiset(front + back) == multiset(rest)
  {
    assert multiset(front + back) == multiset(front + ([e] + back)) - multiset{e};
    assert multiset(rest) == multiset([e] + rest) - multiset{e};
  }

  lemma {:induction false} InsertedLengthIgnoresOrder(text: string, a: seq<TextEdit>, b: seq<TextEdit>, p: Position)
    requires multiset(a) == multiset(b)
    ensures InsertedLength(text, a, p) == InsertedLength(text, b, p)
    decreases |a|
  {
    if a == [] {
      assert |multiset(b)| == 0;
    } else {
      var front, back := Occurrence(a, b);
      InsertedLengthIgnoresOrder(text, a[1..], front + back, p);
      InsertedLengthMoves(text, [], a[0], a[1..], p);
      assert [] + ([a[0]] + a[1..]) == a && [] + a[1..] == a[1..];
      InsertedLengthMoves(text, front, a[0], back, p);
    }
  }

  function Concat(parts: seq<string>): string {
    if parts == [] then "" else parts[0] + Concat(parts[1..])
  }

  lemma {:induction false} ConcatsAgree(a: seq<string>, b: seq<string>)
    requires |a| == |b| && forall i :: 0 <= i < |a| ==> |a[i]| == |b[i]|
    ensures |Concat(a)| == |Concat(b)|
    ensures Concat(a) == Concat(b) <==> a == b
  {
    if a != [] {
      ConcatsAgree(a[1..], b[1..]);
      SameHalves(a[0], b[0], Concat(a[1..]), Concat(b[1..]));
      assert a == [a[0]] + a[1..] && b == [b[0]] + b[1..];
    }
  }

  /** What the new document has for each gap. */
  function Parts(text: string, edits: seq<TextEdit>): (r: seq<string>)
    ensures |r| == |text| + 1 && forall o :: 0 <= o <= |text| ==> r[o] == Written(text, edits, o)
  {
    seq(|text| + 1, o requires 0 <= o <= |text| => Written(text, edits, o))
  }

  lemma {:induction false} ReplacedIsConcat(text: string, edits: seq<TextEdit>, from: nat)
    requires from <= |text|
    ensures ReplacedFrom(text, edits, from) == Concat(Parts(text, edits)[from..])
    decreases |text| - from
  {
    var parts := Parts(text, edits);
    assert parts[from..][0] == parts[from] && parts[from..][1..] == parts[from + 1..];
    if from < |text| {
      ReplacedIsConcat(text, edits, from + 1);
    }
  }

  /** Two orders of the same edits specify the same document exactly when they insert the same at every gap. */
  lemma {:induction false} OneShotsAgree(text: string, a: seq<TextEdit>, b: seq<TextEdit>)
    requires multiset(a) == multiset(b)
    ensures OneShot(text, a) == OneShot(text, b) <==> SameInsertions(text, a, b)
  {
    var x, y := Applicable(text, a), Applicable(text, b);
    var u, v := Parts(text, x), Parts(text, y);
    ReplacedIsConcat(text, x, 0);
    ReplacedIsConcat(text, y, 0);
    assert u[0..] == u && v[0..] == v;
    forall o: nat | o <= |text|
      ensures |u[o]| == |v[o]|
      ensures u[o] == v[o] <==> InsertedAt(x, PositionAt(text, o)) == InsertedAt(y, PositionAt(text, o))
    {
      WrittenAgree(text, a, b, o);
    }
    ConcatsAgree(u, v);
    assert u == v <==> forall o: nat :: o <= |text| ==> u[o] == v[o];
  }

  lemma {:induction false} WrittenAgree(text: string, a: seq<TextEdit>, b: seq<TextEdit>, o: nat)
    requires multiset(a) == multiset(b) && o <= |text|
    ensures var x, y, p := Applicable(text, a), Applicable(text, b), PositionAt(text, o);
      && |Written(text, x, o)| == |Written(text, y, o)|
      && (Written(text, x, o) == Written(text, y, o) <==> InsertedAt(x, p) == InsertedAt(y, p))
  {
    var x, y, p := Applicable(text, a), Applicable(text, b), PositionAt(text, o);
    SameMembers(a, b);
    InsertedLengthIgnoresOrder(text, a, b, p);
    assert Removed(x, p) <==> Removed(y, p);
    var kept := if o == |text| || Removed(x, p) then "" else [text[o]];
    SameHalves(InsertedAt(x, p), InsertedAt(y, p), kept, kept);
  }

  lemma {:induction false} SameHalves(a: string, b: string, x: string, y: string)
    requires |a| == |b|
    ensures a + x == b + y <==> a == b && x == y
  {
    assert a == (a + x)[..|a|] && x == (a + x)[|a|..];
    assert b == (b + y)[..|b|] && y == (b + y)[|b|..];
  }

  /**
   Two insertions at one position and nothing else: the code writes the second in front of the first, so it
   agrees with the specification exactly when the two texts commute.
   */
  lemma {:induction false} EqualStarts(text: string, p: Position, first: string, second: string)
    requires Located(text, p)
    ensures var edits := [TextEdit(p, p, first), TextEdit(p, p, second)];
      && ExchangeSorted(edits) == edits
      && (Join(SpliceAll(Split(text, NEWLINE), edits), NEWLINE) == OneShot(text, edits)
          <==> second + first == first + second)
  {
    var a, b := TextEdit(p, p, first), TextEdit(p, p, second);
    TwoApplied(text, a, b);
    TwoCommute(text, a, b);
  }

  lemma {:induction false} TwoApplied(text: string, a: TextEdit, b: TextEdit)
    requires IsInsertion(a) && a.start == b.start && IsInsertion(b)
    ensures ExchangeSorted([a, b]) == [a, b]
    ensures Join(SpliceAll(Split(text, NEWLINE), [a, b]), NEWLINE) == OneShot(text, [a, b])
       <==> SameInsertions(text, [a, b], [b, a])
  {
    ExchangeLeavesSorted([a, b]);
    AppliesSorted(text, [a, b]);
    TwoReversed(a, b);
  }

  lemma {:induction false} TwoCommute(text: string, a: TextEdit, b: TextEdit)
    requires Located(text, a.start) && IsInsertion(a) && a.start == b.start && IsInsertion(b)
    ensures SameInsertions(text, [a, b], [b, a]) <==> b.newText + a.newText == a.newText + b.newText
  {
    var o: nat :| o <= |text| && PositionAt(text, o) == a.start;
    TwoInserted(text, a, b);
    TwoInserted(text, b, a);
    assert InsertedAt([a, b], PositionAt(text, o)) == a.newText + b.newText;
  }

  lemma {:induction false} TwoReversed(a: TextEdit, b: TextEdit)
    ensures Reversed([a, b]) == [b, a]
  {
    assert [a, b][..1] == [a] && [a][..0] == [];
    assert Reversed([a]) == [a];
  }

  lemma {:induction false} TwoInserted(text: string, a: TextEdit, b: TextEdit)
    requires Located(text, a.start) && IsInsertion(a) && a.start == b.start && IsInsertion(b)
    ensures Applicable(text, [a, b]) == [a, b]
    ensures forall p :: InsertedAt([a, b], p) == if p == a.start then a.newText + b.newText else ""
  {
    assert [a, b][1..] == [b] && [b][1..] == [];
    assert Applicable(text, [b]) == [b];
    forall p
      ensures InsertedAt([a, b], p) == if p == a.start then a.newText + b.newText else ""
    {
      assert InsertedAt([b], p) == if p == a.start then b.newText else "";
    }
  }

  lemma {:induction false} TieIsTurned(a: TextEdit, b: TextEdit, c: TextEdit)
    requires a.start == b.start && Before(a.start, c.start)
    ensures ExchangeSorted([a, b, c]) == [c, b, a]
  {
    assert [a, b, c][1..] == [b, c] && [b, c][1..] == [c] && [c][1..] == [];
    assert Exchange(a, [c]) == (c, [a]) by { assert Exchange(c, []) == (c, []) && [a] + [] == [a]; }
    assert Exchange(a, [b, c]) == (c, [b, a]) by { assert [b] + [a] == [b, a]; }
    ExchangeLeavesSorted([b, a]);
    assert [c] + [b, a] == [c, b, a];
  }

  lemma {:induction false} ThreeReversed(a: TextEdit, b: TextEdit, c: TextEdit)
    ensures Reversed([c, b, a]) == [a, b, c]
  {
    TwoReversed(c, b);
    assert [c, b, a][..2] == [c, b];
    assert [a] + [b, c] == [a, b, c];
  }

  /** An edit behind the two undoes this: the exchange sort then turns the insertions round. */
  lemma {:induction false} TieInFrontOfAnother(text: string, a: TextEdit, b: TextEdit, c: TextEdit)
    requires IsInsertion(a) && IsInsertion(b) && a.start == b.start && Before(a.start, c.start)
    requires AtOrBefore(c.start, c.end)
    ensures ExchangeSorted([a, b, c]) == [c, b, a]
    ensures Join(SpliceAll(Split(text, NEWLINE), [c, b, a]), NEWLINE) == OneShot(text, [a, b, c])
  {
    TieIsTurned(a, b, c);
    ThreeReversed(a, b, c);
    StackedIsOneShot(text, [c, b, a]);
  }

  // ----- a replacement behind an insertion at its start

  lemma {:induction false} LineStartShifts(lines: seq<string>, l: nat, line: string, m: nat)
    requires l < |lines| && m <= |lines|
    ensures LineStart(lines[l := line], m) == LineStart(lines, m) + if l < m then |line| - |lines[l]| else 0
  {
    if m > 0 {
      LineStartShifts(lines, l, line, m - 1);
    }
  }

  /** The line array with `x` inserted at `p`, and where it then has `p` and a later position. */
  lemma {:induction false} Inserting(lines: seq<string>, p: Position, q: Position, x: string)
    requires InLines(lines, p) && InLines(lines, q) && Before(p, q)
    ensures var next := Splice(lines, TextEdit(p, p, x));
      && InLines(next, p) && Offset(next, p) == Offset(lines, p)
      && InLines(next, q) && Offset(next, q) == Offset(lines, q) + if p.line == q.line then 0 else |x|
  {
    var line := lines[p.line][..p.character] + x + lines[p.line][p.character..];
    assert Splice(lines, TextEdit(p, p, x)) == lines[p.line := line];
    LineStartShifts(lines, p.line, line, p.line);
    LineStartShifts(lines, p.line, line, q.line);
  }

  /** The specification of an insertion and a replacement behind it at the same start. */
  lemma {:induction false} InsertionThenReplacementSpecified(text: string, a: TextEdit, b: TextEdit)
    requires var lines := Split(text, NEWLINE);
      InLines(lines, a.start) && InLines(lines, b.end) && Before(a.start, b.end)
    requires IsInsertion(a) && b.start == a.start
    ensures var lines := Split(text, NEWLINE);
      var o, o2 := Offset(lines, a.start), Offset(lines, b.end);
      o < o2 <= |text| && OneShot(text, [a, b]) == text[..o] + (a.newText + b.newText) + text[o2..]
  {
    var lines := Split(text, NEWLINE);
    var o, o2 := Offset(lines, a.start), Offset(lines, b.end);
    JoinSplit(text, NEWLINE);
    OffsetsOrdered(text, a.start, b.end);
    OffsetHasPosition(text, b.end);
    TwoReversed(b, a);
    StackedIsOneShot(text, [b, a]);
    TwoSpliced(lines, b, a);
    ReplacedLinesKeep(lines, b);
    SpliceReplaces(lines, b);
    SpliceReplaces(Splice(lines, b), a);
    InsertingAfterReplacing(text, o, o2, a.newText, b.newText);
  }

  /** What the code makes of it. */
  lemma {:induction false} InsertionThenReplacementSpliced(text: string, a: TextEdit, b: TextEdit)
    requires var lines := Split(text, NEWLINE);
      InLines(lines, a.start) && InLines(lines, b.end) && Before(a.start, b.end)
    requires IsInsertion(a) && b.start == a.start
    ensures var lines, x := Split(text, NEWLINE), a.newText;
      var o, o2 := Offset(lines, a.start), Offset(lines, b.end);
      && o < o2 <= |text|
      && Join(SpliceAll(Split(text, NEWLINE), [a, b]), NEWLINE)
         == text[..o] + (b.newText + Leftover(text, x, o, o2, a.start.line == b.end.line)) + text[o2..]
  {
    var lines, x := Split(text, NEWLINE), a.newText;
    var o, o2, oneLine := Offset(lines, a.start), Offset(lines, b.end), a.start.line == b.end.line;
    OffsetsOrdered(text, a.start, b.end);
    OffsetHasPosition(text, b.end);
    var t, next := text[..o] + x + text[o..], Splice(lines, a);
    assert Join(next, NEWLINE) == t by {
      JoinSplit(text, NEWLINE);
      SpliceReplaces(lines, a);
    }
    assert Join(Splice(next, b), NEWLINE) == t[..o] + b.newText + t[o2 + (if oneLine then 0 else |x|)..] by {
      Inserting(lines, a.start, b.end, x);
      SpliceReplaces(next, b);
    }
    ReplacingAfterInserting(text, o, o2, x, b.newText, oneLine);
    TwoSpliced(lines, a, b);
  }

  /** What is left of an insertion and the text behind it when as much as stood there is taken away again. */
  function Leftover(text: string, x: string, o: nat, o2: nat, oneLine: bool): string
    requires o <= o2 <= |text|
  {
    if oneLine then (x + text[o..o2])[o2 - o..] else ""
  }

  lemma {:induction false} TwoSpliced(lines: seq<string>, a: TextEdit, b: TextEdit)
    ensures SpliceAll(lines, [a, b]) == Splice(Splice(lines, a), b)
  {
    assert [a, b][..1] == [a] && [a][..0] == [];
    assert SpliceAll(lines, [a]) == Splice(lines, a);
  }

  lemma {:induction false} ReplacedLinesKeep(lines: seq<string>, e: TextEdit)
    requires InLines(lines, e.start) && InLines(lines, e.end)
    ensures InLines(Splice(lines, e), e.start) && Offset(Splice(lines, e), e.start) == Offset(lines, e.start)
  {
    assert Splice(lines, e)[..e.start.line] == lines[..e.start.line];
    LineStartOfPrefix(lines, Splice(lines, e), e.start.line);
  }

  lemma {:induction false} InsertingAfterReplacing(text: string, o: nat, o2: nat, x: string, y: string)
    requires o <= o2 <= |text|
    ensures var t := text[..o] + y + text[o2..];
      t[..o] + x + t[o..] == text[..o] + (x + y) + text[o2..]
  {
    var t := text[..o] + y + text[o2..];
    assert t[..o] == text[..o] && t[o..] == y + text[o2..];
    Regroup(text[..o] + x, y, text[o2..]);
    Regroup(text[..o], x, y);
  }

  lemma {:induction false} ReplacingAfterInserting(text: string, o: nat, o2: nat, x: string, y: string,
                                                   oneLine: bool)
    requires o <= o2 <= |text|
    ensures var t := text[..o] + x + text[o..];
      t[..o] + y + t[o2 + (if oneLine then 0 else |x|)..]
        == text[..o] + (y + Leftover(text, x, o, o2, oneLine)) + text[o2..]
  {
    var t := text[..o] + x + text[o..];
    var left := Leftover(text, x, o, o2, oneLine);
    assert t[..o] == text[..o];
    if oneLine {
      assert t[o2..] == (x + text[o..])[o2 - o..];
      assert x + text[o..] == (x + text[o..o2]) + text[o2..];
      assert t[o2..] == left + text[o2..];
    } else {
      assert t[o2 + |x|..] == text[o2..];
    }
    Regroup(text[..o] + y, left, text[o2..]);
    Regroup(text[..o], y, left);
  }

  lemma {:induction false} Between(left: string, x: string, y: string, right: string)
    ensures left + x + right == left + y + right <==> x == y
  {
    if left + x + right == left + y + right {
      assert (left + x + right)[|left|..|left| + |x|] == x;
      assert (left + y + right)[|left|..|left| + |y|] == y;
    }
  }

  /**
   A replacement behind an insertion at its start: the code takes the inserted text for text to be replaced.
   This agrees with the specification exactly when that makes no difference; across lines, where the whole
   insertion is lost, exactly when nothing was inserted.
   */
  lemma {:induction false} InsertionThenReplacement(text: string, a: TextEdit, b: TextEdit)
    requires var lines := Split(text, NEWLINE);
      InLines(lines, a.start) && InLines(lines, b.end) && Before(a.start, b.end)
    requires IsInsertion(a) && b.start == a.start
    ensures var lines, x, y := Split(text, NEWLINE), a.newText, b.newText;
      var o, o2 := Offset(lines, a.start), Offset(lines, b.end);
      && o < o2 <= |text| && ExchangeSorted([a, b]) == [a, b]
      && (Join(SpliceAll(lines, [a, b]), NEWLINE) == OneShot(text, [a, b])
          <==> y + Leftover(text, x, o, o2, a.start.line == b.end.line) == x + y)
  {
    var lines, x, y := Split(text, NEWLINE), a.newText, b.newText;
    var o, o2 := Offset(lines, a.start), Offset(lines, b.end);
    InsertionThenReplacementSpliced(text, a, b);
    InsertionThenReplacementSpecified(text, a, b);
    Between(text[..o], y + Leftover(text, x, o, o2, a.start.line == b.end.line), x + y, text[o2..]);
    ExchangeLeavesSorted([a, b]);
  }

  /** Across lines nothing is left of the insertion. */
  lemma {:induction false} LostAcrossLines(text: string, x: string, y: string, o: nat, o2: nat)
    requires o <= o2 <= |text|
    ensures y + Leftover(text, x, o, o2, false) == x + y <==> x == ""
  {
    assert |y + Leftover(text, x, o, o2, false)| == |y|;
  }

  lemma {:induction false} OverwrittenLine(line: string, n: nat, x: string, y: string)
    requires NEWLINE !in line && 0 < n <= |line|
    ensures var edits := [TextEdit(Position(0, 0), Position(0, 0), x), TextEdit(Position(0, 0), Position(0, n), y)];
      && Split(line, NEWLINE) == [line]
      && Join(SpliceAll([line], edits), NEWLINE) == line[..0] + (y + Leftover(line, x, 0, n, true)) + line[n..]
      && OneShot(line, edits) == line[..0] + (x + y) + line[n..]
  {
    var a, b := TextEdit(Position(0, 0), Position(0, 0), x), TextEdit(Position(0, 0), Position(0, n), y);
    SplitPlain(line, NEWLINE);
    InsertionThenReplacementSpliced(line, a, b);
    InsertionThenReplacementSpecified(line, a, b);
  }

  /** The inserted letter is overwritten although the two texts commute. */
  lemma {:induction false} OverwrittenInput()
    ensures var edits := [TextEdit(Position(0, 0), Position(0, 0), "A"), TextEdit(Position(0, 0), Position(0, 2), "A")];
      Join(SpliceAll(["xyz"], edits), NEWLINE) == "Ayz" && OneShot("xyz", edits) == "AAz"
  {
    OverwrittenLine("xyz", 2, "A", "A");
    OverwrittenLetters();
  }

  lemma {:induction false} OverwrittenLetters()
    ensures "xyz"[..0] + ("A" + Leftover("xyz", "A", 0, 2, true)) + "xyz"[2..] == "Ayz"
    ensures "xyz"[..0] + ("A" + "A") + "xyz"[2..] == "AAz"
  {
    assert "xyz"[..0] == "" && "xyz"[0..2] == "xy" && "xyz"[2..] == "z";
    assert ("A" + "xy")[2..] == "y";
  }

  // ----- edits out of range

  function InRange(lines: seq<string>, edits: seq<TextEdit>): (r: seq<TextEdit>)
    ensures forall e :: e in r <==> e in edits && InLines(lines, e.start) && InLines(lines, e.end)
  {
    if edits == [] then []
    else
      (if InLines(lines, edits[0].start) && InLines(lines, edits[0].end) then [edits[0]] else [])
      + InRange(lines, edits[1..])
  }

  lemma {:induction false} InRangeIsApplicable(text: string, edits: seq<TextEdit>)
    ensures Applicable(text, edits) == Applicable(text, InRange(Split(text, NEWLINE), edits))
         == InRange(Split(text, NEWLINE), edits)
  {
    if edits != [] {
      var lines := Split(text, NEWLINE);
      var e := edits[0];
      LocatedIsInLines(text, e.start);
      LocatedIsInLines(text, e.end);
      InRangeIsApplicable(text, edits[1..]);
      if InLines(lines, e.start) && InLines(lines, e.end) {
        assert ([e] + InRange(lines, edits[1..]))[1..] == InRange(lines, edits[1..]);
      } else {
        assert [] + InRange(lines, edits[1..]) == InRange(lines, edits[1..]);
      }
    }
  }

  /** Unambiguous edits are applied as specified for those both of whose ends exist; all others are skipped. */
  lemma {:induction false} SkipsOutOfRange(text: string, edits: seq<TextEdit>)
    requires WellFormed(edits)
    ensures var lines := Split(text, NEWLINE);
      Join(SpliceAll(lines, ExchangeSorted(edits)), NEWLINE) == OneShot(text, InRange(lines, edits))
  {
    AppliesSorted(text, edits);
    InRangeIsApplicable(text, edits);
  }

  // ----- characters past the end of their line

  /** LSP 3.17, "Position": a character past the end of its line stands for the end of the line. */
  function Clamped(lines: seq<string>, e: TextEdit): TextEdit
    requires e.start.line < |lines| && e.end.line < |lines|
  {
    TextEdit(Clip(lines, e.start), Clip(lines, e.end), e.newText)
  }

  lemma {:induction false} ReplacedInPlace(text: string, a: nat, b: nat, x: string)
    requires a <= b <= |text|
    ensures text[..a] + x + text[b..] == text <==> x == text[a..b]
  {
    assert text == text[..a] + text[a..b] + text[b..];
    if text[..a] + x + text[b..] == text {
      assert |x| == b - a;
      assert (text[..a] + x + text[b..])[a..b] == x;
    }
  }

  /** A clamped edit is in range and unambiguous, so the code would apply it as specified. */
  lemma {:induction false} ClampedIsApplied(text: string, e: TextEdit)
    requires e.start.line < |Split(text, NEWLINE)| && e.end.line < |Split(text, NEWLINE)|
    requires AtOrBefore(e.start, e.end)
    ensures var lines := Split(text, NEWLINE);
      var c := Clamped(lines, e);
      && Offset(lines, c.start) <= Offset(lines, c.end) <= |text|
      && OneShot(text, [c]) == text[..Offset(lines, c.start)] + e.newText + text[Offset(lines, c.end)..]
  {
    var lines := Split(text, NEWLINE);
    var c := Clamped(lines, e);
    JoinSplit(text, NEWLINE);
    SpliceReplaces(lines, c);
    OffsetsOrdered(text, c.start, c.end);
    assert [c][..0] == [];
    assert SpliceAll(lines, [c]) == Splice(lines, c);
    SortedApplyIsOneShot(text, [c], [c]);
  }

  /**
   The code skips an edit one of whose characters lies past the end of its line. For lines that exist
   it agrees with the clamped edit exactly when nothing is clamped or nothing would be changed.
   */
  lemma {:induction false} ClampingAgreesExactly(text: string, e: TextEdit)
    requires e.start.line < |Split(text, NEWLINE)| && e.end.line < |Split(text, NEWLINE)|
    requires AtOrBefore(e.start, e.end)
    ensures var lines := Split(text, NEWLINE);
      var c := Clamped(lines, e);
      var a, b := Offset(lines, c.start), Offset(lines, c.end);
      && a <= b <= |text|
      && (Join(SpliceAll(lines, [e]), NEWLINE) == OneShot(text, [c])
          <==> (InLines(lines, e.start) && InLines(lines, e.end)) || e.newText == text[a..b])
  {
    var lines := Split(text, NEWLINE);
    var c := Clamped(lines, e);
    ClampedIsApplied(text, e);
    JoinSplit(text, NEWLINE);
    assert [e][..0] == [];
    if InLines(lines, e.start) && InLines(lines, e.end) {
      assert c == e;
      SpliceReplaces(lines, e);
    } else {
      ReplacedInPlace(text, Offset(lines, c.start), Offset(lines, c.end), e.newText);
    }
  }

  lemma {:induction false} ReplacedPastTheEnd(line: string, k: nat, x: string)
    requires NEWLINE !in line && k > |line|
    ensures var e := TextEdit(Position(0, 0), Position(0, k), x);
      && Split(line, NEWLINE) == [line]
      && Join(SpliceAll([line], [e]), NEWLINE) == line
      && OneShot(line, [Clamped([line], e)]) == x
  {
    var e := TextEdit(Position(0, 0), Position(0, k), x);
    SplitPlain(line, NEWLINE);
    ClampedIsApplied(line, e);
    assert [e][..0] == [];
    var c := Clamped([line], e);
    assert Offset([line], c.start) == 0 && Offset([line], c.end) == |line|;
    assert line[..0] + x + line[|line|..] == x;
  }

  /** Replacing a whole document up to a character past its last line, as formatters do, is skipped. */
  lemma {:induction false} ClampedInput()
    ensures var e := TextEdit(Position(0, 0), Position(0, 9), "b");
      && Join(SpliceAll(Split("a", NEWLINE), [e]), NEWLINE) == "a"
      && Split("a", NEWLINE) == ["a"] && OneShot("a", [Clamped(["a"], e)]) == "b"
  {
    ReplacedPastTheEnd("a", 9, "b");
  }
}
