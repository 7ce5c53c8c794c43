/**
 The paged text search (mcpserver/tools/project_analysis.go, handleTextSearch): a byte loop over
 the lines of each file that stops as soon as the requested page is full. `files` are the contents
 of the files the walk accepts, in walk order.
 */
module TextSearch {
  import opened Collections
  import opened Wrappers
  import opened Text

  datatype Hit = Hit(file: nat, line: nat, character: nat)

  const NEWLINE := '\n'

  // ----- the full scan

  function TrimCR(line: string): string {
    if line != "" && line[|line| - 1] == '\r' then line[..|line| - 1] else line
  }

  /** The first place where the query occurs, as strings.Index finds it. */
  function IndexOf(line: string, query: string): Option<nat> {
    if query <= line then Some(0)
    else if line == "" then None
    else
      match IndexOf(line[1..], query)
      case Some(i) => Some(i + 1)
      case None => None
  }

  function LineHit(line: string, query: string, file: nat, number: nat): seq<Hit> {
    match IndexOf(TrimCR(line), query)
    case Some(i) => [Hit(file, number, i)]
    case None => []
  }

  function HitsIn(lines: seq<string>, query: string, file: nat, number: nat): seq<Hit> {
    if lines == [] then [] else LineHit(lines[0], query, file, number) + HitsIn(lines[1..], query, file, number + 1)
  }

  /** All matches of the files from number `file` on: each file split at newlines, at most one match a line. */
  function AllHits(files: seq<string>, query: string, file: nat): seq<Hit> {
    if files == [] then []
    else HitsIn(Split(files[0], NEWLINE), query, file, 0) + AllHits(files[1..], query, file + 1)
  }

  function Min(a: nat, b: nat): nat {
    if a < b then a else b
  }

  function Page(all: seq<Hit>, offset: nat, limit: nat): seq<Hit> {
    all[Min(offset, |all|)..Min(offset + limit, |all|)]
  }

  lemma StartsBehind(line: string, query: string, j: nat)
    requires line != "" && 1 <= j <= |line|
    ensures query <= line[j..] <==> query <= line[1..][j - 1..]
  {
    assert line[j..] == line[1..][j - 1..];
  }

  lemma StartsHere(line: string, query: string, i: nat)
    requires i <= |line|
    ensures query <= line[i..] <==> i + |query| <= |line| && line[i..i + |query|] == query
  {
    if i + |query| <= |line| {
      assert line[i..][..|query|] == line[i..i + |query|];
    }
  }

  /** The query starts at the index and nowhere in front of it, or nowhere at all. */
  lemma {:induction false} IndexStarts(line: string, query: string)
    ensures IndexOf(line, query).Some? ==> IndexOf(line, query).value <= |line|
    ensures IndexOf(line, query).Some? ==> query <= line[IndexOf(line, query).value..]
    ensures forall j :: 0 <= j <= |line| && (IndexOf(line, query) == None || j < IndexOf(line, query).value) ==>
              !(query <= line[j..])
  {
    assert line[0..] == line;
    if !(query <= line) && line != "" {
      IndexStarts(line[1..], query);
      forall j | 1 <= j <= |line|
        ensures query <= line[j..] <==> query <= line[1..][j - 1..]
      {
        StartsBehind(line, query, j);
      }
    }
  }

  /** IndexOf is the least position at which the query starts. */
  lemma IndexIsFirst(line: string, query: string)
    ensures IndexOf(line, query).Some? ==>
              var i := IndexOf(line, query).value;
              i + |query| <= |line| && line[i..i + |query|] == query
              && forall j :: 0 <= j < i ==> !(query <= line[j..])
    ensures IndexOf(line, query) == None ==> forall j :: 0 <= j <= |line| ==> !(query <= line[j..])
  {
    IndexStarts(line, query);
    if IndexOf(line, query).Some? {
      StartsHere(line, query, IndexOf(line, query).value);
    }
  }

  // ----- the early-stopping scan

  /** One line more: what has been seen and what the page holds. */
  lemma PageGrows(seen: seq<Hit>, hit: Hit, offset: nat, limit: nat)
    ensures Page(seen + [hit], offset, limit)
         == Page(seen, offset, limit)
            + if |seen| + 1 > offset && limit > 0 && |Page(seen, offset, limit)| < limit then [hit] else []
  {
  }

  /** The line that starts at `start` and ends in front of `end`, and what follows it. */
  lemma SplitAt(data: string, start: nat, end: nat)
    requires start <= end <= |data| && NEWLINE !in data[start..end] && (end < |data| ==> data[end] == NEWLINE)
    ensures Split(data[start..], NEWLINE)
         == if end == |data| then [data[start..end]] else [data[start..end]] + Split(data[end + 1..], NEWLINE)
  {
    if end == |data| {
      assert data[start..] == data[start..end];
      SplitPlain(data[start..end], NEWLINE);
    } else {
      assert data[start..] == data[start..end] + [NEWLINE] + data[end + 1..];
      SplitPrefix(data[start..end], NEWLINE, data[end + 1..]);
    }
  }

  function Need(offset: nat, limit: nat): nat {
    if limit == 0 then offset else offset + limit
  }

  /** So many matches complete the page, and the scan stops. */
  predicate Enough(matches: nat, offset: nat, limit: nat) {
    Need(offset, limit) > 0 && matches >= Need(offset, limit)
  }

  /** Matches that come after enough of them change nothing on the page. */
  lemma PageIsFull(all: seq<Hit>, n: nat, offset: nat, limit: nat)
    requires n <= |all| && Enough(n, offset, limit)
    ensures Page(all[..n], offset, limit) == Page(all, offset, limit) && Enough(|all|, offset, limit)
  {
  }

  method FindEnd(data: string, start: nat) returns (end: nat)
    requires start <= |data|
    ensures start <= end <= |data| && NEWLINE !in data[start..end] && (end < |data| ==> data[end] == NEWLINE)
  {
    end := start;
    while end < |data| && data[end] != NEWLINE
      invariant start <= end <= |data| && NEWLINE !in data[start..end]
    {
      end := end + 1;
    }
  }

  /** The counter and the page stand at the matches `seen`. */
  predicate Counted(seen: seq<Hit>, seenMatches: nat, hits: seq<Hit>, offset: nat, limit: nat) {
    seenMatches == |seen| && hits == Page(seen, offset, limit)
  }

  /** One line: `seen` are all matches of the lines in front of it, `next` has its own match as well. */
  method VisitLine(line: string, query: string, file: nat, number: nat, offset: nat, limit: nat, seenBefore: nat,
                   hitsBefore: seq<Hit>, ghost seen: seq<Hit>, ghost next: seq<Hit>)
    returns (seenMatches: nat, hits: seq<Hit>, stop: bool)
    requires Counted(seen, seenBefore, hitsBefore, offset, limit) && !Enough(|seen|, offset, limit)
    requires next == seen + LineHit(line, query, file, number)
    ensures Counted(next, seenMatches, hits, offset, limit)
    ensures stop <==> Enough(|next|, offset, limit)
    ensures stop ==> |next| == Need(offset, limit)
  {
    seenMatches, hits := seenBefore, hitsBefore;
    var index := IndexOf(TrimCR(line), query);
    if index == None {
      assert next == seen;
      return seenMatches, hits, false;
    }
    var hit := Hit(file, number, index.value);
    PageGrows(seen, hit, offset, limit);
    seenMatches := seenMatches + 1;
    if seenMatches > offset && limit > 0 && |hits| < limit {
      hits := hits + [hit];
    }
    stop := Need(offset, limit) > 0 && seenMatches >= Need(offset, limit) && (limit == 0 || |hits| >= limit);
  }

  /** The matches ahead in a file when the line `number` starts at `start`. */
  function Ahead(data: string, query: string, file: nat, number: nat, start: nat): seq<Hit> {
    if start <= |data| then HitsIn(Split(data[start..], NEWLINE), query, file, number) else []
  }

  lemma AtFirstLine(data: string, query: string, file: nat)
    ensures Ahead(data, query, file, 0, 0) == HitsIn(Split(data, NEWLINE), query, file, 0)
  {
    assert data[0..] == data;
  }

  lemma LineThenRest(data: string, query: string, file: nat, line: nat, start: nat, end: nat)
    requires start <= end <= |data| && NEWLINE !in data[start..end] && (end < |data| ==> data[end] == NEWLINE)
    ensures Ahead(data, query, file, line, start)
         == LineHit(data[start..end], query, file, line) + Ahead(data, query, file, line + 1, end + 1)
  {
    SplitAt(data, start, end);
    var lines := Split(data[start..], NEWLINE);
    if end == |data| {
      assert HitsIn(lines[1..], query, file, line + 1) == [];
    } else {
      assert lines[1..] == Split(data[end + 1..], NEWLINE);
    }
  }

  /** The scan stands in front of the matches `ahead` and has counted and paged the ones before them. */
  ghost predicate Scanned(all: seq<Hit>, ahead: seq<Hit>, seenMatches: nat, hits: seq<Hit>, offset: nat, limit: nat) {
    && seenMatches <= |all| && all[seenMatches..] == ahead
    && Counted(all[..seenMatches], seenMatches, hits, offset, limit)
  }

  lemma ScannedOn(all: seq<Hit>, found: seq<Hit>, rest: seq<Hit>, seenMatches: nat)
    requires seenMatches <= |all| && all[seenMatches..] == found + rest
    ensures seenMatches + |found| <= |all| && all[seenMatches + |found|..] == rest
    ensures all[..seenMatches] + found == all[..seenMatches + |found|]
  {
    assert all == all[..seenMatches] + (found + rest);
  }

  /** The line that starts at `start`; `all` are the matches up to the end of the file. */
  method ScanLine(data: string, query: string, file: nat, line: nat, start: nat, offset: nat, limit: nat,
                  seenBefore: nat, hitsBefore: seq<Hit>, ghost all: seq<Hit>)
    returns (end: nat, seenMatches: nat, hits: seq<Hit>, stop: bool)
    requires start <= |data|
    requires Scanned(all, Ahead(data, query, file, line, start), seenBefore, hitsBefore, offset, limit)
    requires !Enough(seenBefore, offset, limit)
    ensures start <= end <= |data|
    ensures Scanned(all, Ahead(data, query, file, line + 1, end + 1), seenMatches, hits, offset, limit)
    ensures stop <==> Enough(seenMatches, offset, limit)
    ensures stop ==> seenMatches == Need(offset, limit)
  {
    end := FindEnd(data, start);
    LineThenRest(data, query, file, line, start, end);
    ghost var found := LineHit(data[start..end], query, file, line);
    ScannedOn(all, found, Ahead(data, query, file, line + 1, end + 1), seenBefore);
    seenMatches, hits, stop := VisitLine(data[start..end], query, file, line, offset, limit, seenBefore, hitsBefore,
                                         all[..seenBefore], all[..seenBefore + |found|]);
  }

  /** The line loop; `all` are the matches up to the end of the file. */
  method ScanLines(data: string, query: string, file: nat, offset: nat, limit: nat, seenBefore: nat,
                   hitsBefore: seq<Hit>, ghost all: seq<Hit>)
    returns (seenMatches: nat, hits: seq<Hit>, stopped: bool)
    requires Scanned(all, Ahead(data, query, file, 0, 0), seenBefore, hitsBefore, offset, limit)
    requires !Enough(seenBefore, offset, limit)
    ensures hits == Page(all, offset, limit)
    ensures stopped <==> Enough(|all|, offset, limit)
    ensures seenMatches == if stopped then Need(offset, limit) else |all|
  {
    seenMatches, hits := seenBefore, hitsBefore;
    var start, line := 0, 0;
    while true
      invariant 0 <= start <= |data|
      invariant Scanned(all, Ahead(data, query, file, line, start), seenMatches, hits, offset, limit)
      invariant !Enough(seenMatches, offset, limit)
      decreases |data| - start
    {
      var end;
      end, seenMatches, hits, stopped :=
        ScanLine(data, query, file, line, start, offset, limit, seenMatches, hits, all);
      if stopped {
        PageIsFull(all, seenMatches, offset, limit);
        return;
      }
      line := line + 1;
      if end >= |data| {
        ScannedAll(all, seenMatches, hits, offset, limit);
        break;
      }
      start := end + 1;
    }
    stopped := false;
  }

  lemma ScannedAll(all: seq<Hit>, seenMatches: nat, hits: seq<Hit>, offset: nat, limit: nat)
    requires Scanned(all, [], seenMatches, hits, offset, limit)
    ensures Counted(all, seenMatches, hits, offset, limit)
  {
    assert |all[seenMatches..]| == 0;
    assert all[..seenMatches] == all;
  }

  /** All lines of one file; `seen` are all matches of the files in front of it. */
  method ScanFile(data: string, query: string, file: nat, offset: nat, limit: nat, seenBefore: nat,
                  hitsBefore: seq<Hit>, ghost seen: seq<Hit>)
    returns (seenMatches: nat, hits: seq<Hit>, stopped: bool)
    requires Counted(seen, seenBefore, hitsBefore, offset, limit) && !Enough(|seen|, offset, limit)
    ensures var all := seen + HitsIn(Split(data, NEWLINE), query, file, 0);
      && hits == Page(all, offset, limit)
      && (stopped <==> Enough(|all|, offset, limit))
      && seenMatches == if stopped then Need(offset, limit) else |all|
  {
    ghost var all := seen + HitsIn(Split(data, NEWLINE), query, file, 0);
    AtFirstLine(data, query, file);
    assert all[..|seen|] == seen;
    seenMatches, hits, stopped := ScanLines(data, query, file, offset, limit, seenBefore, hitsBefore, all);
  }

  /** Exactly the requested page of the full scan, however early the scan stopped. */
  method Search(files: seq<string>, query: string, offset: nat, limit: nat)
    returns (hits: seq<Hit>, seenMatches: nat, truncated: bool)
    ensures hits == Page(AllHits(files, query, 0), offset, limit)
    ensures truncated <==> offset + limit > 0 && |AllHits(files, query, 0)| >= offset + limit
    ensures seenMatches == if truncated then offset + limit else |AllHits(files, query, 0)|
  {
    ghost var all, seen: seq<Hit> := AllHits(files, query, 0), [];
    hits, seenMatches := [], 0;
    var f := 0;
    while f < |files|
      invariant 0 <= f <= |files|
      invariant all == seen + AllHits(files[f..], query, f)
      invariant Counted(seen, seenMatches, hits, offset, limit) && !Enough(|seen|, offset, limit)
    {
      ghost var found, later := HitsIn(Split(files[f], NEWLINE), query, f, 0), AllHits(files[f + 1..], query, f + 1);
      assert files[f..][1..] == files[f + 1..];
      Regroup(seen, found, later);
      seenMatches, hits, truncated := ScanFile(files[f], query, f, offset, limit, seenMatches, hits, seen);
      seen := seen + found;
      if truncated {
        assert all[..|seen|] == seen;
        PageIsFull(all, |seen|, offset, limit);
        return;
      }
      f := f + 1;
    }
    assert seen == all;
    truncated := false;
  }

  // ----- following next_offset

  /** The pages a caller collects who asks again with the reported next offset while the answer says there is more. */
  function FollowPages(all: seq<Hit>, offset: nat, limit: nat): seq<Hit>
    requires limit > 0
    decreases |all| - offset
  {
    var page := Page(all, offset, limit);
    if Enough(|all|, offset, limit) then page + FollowPages(all, offset + |page|, limit) else page
  }

  /** Every match is visited once, in order. */
  lemma {:induction false} PagesVisitAll(all: seq<Hit>, offset: nat, limit: nat)
    requires limit > 0 && offset <= |all|
    ensures FollowPages(all, offset, limit) == all[offset..]
    decreases |all| - offset
  {
    if Enough(|all|, offset, limit) {
      PagesVisitAll(all, offset + limit, limit);
      assert all[offset..] == all[offset..offset + limit] + all[offset + limit..];
    }
  }

  // ----- what a hit is

  /** The query occurs at `i` and nowhere in front of it. */
  predicate FirstAt(text: string, query: string, i: nat) {
    i + |query| <= |text| && text[i..i + |query|] == query && forall j :: 0 <= j < i ==> !(query <= text[j..])
  }

  /** `text` is the line without one closing carriage return. */
  predicate WithoutReturn(line: string, text: string) {
    line == text + "\r" || (line == text && (text == "" || text[|text| - 1] != '\r'))
  }

  /** The hit is that of its line. */
  ghost predicate HitOf(line: string, query: string, character: nat) {
    exists text :: WithoutReturn(line, text) && FirstAt(text, query, character)
  }

  lemma TrimmedReturn(line: string, text: string)
    ensures WithoutReturn(line, text) <==> text == TrimCR(line)
  {
    if line == text + "\r" {
      assert line[..|line| - 1] == text;
    }
    if text == TrimCR(line) && text != line {
      assert line == line[..|line| - 1] + [line[|line| - 1]];
    }
  }

  lemma FirstIsIndex(text: string, query: string, i: nat)
    ensures FirstAt(text, query, i) <==> IndexOf(text, query) == Some(i)
  {
    IndexIsFirst(text, query);
    if FirstAt(text, query, i) {
      assert query <= text[i..];
      if IndexOf(text, query).Some? {
        var k := IndexOf(text, query).value;
        assert query <= text[k..];
      }
    }
  }

  lemma LineHitIs(line: string, query: string, file: nat, number: nat, h: Hit)
    ensures h in LineHit(line, query, file, number)
       <==> h.file == file && h.line == number && HitOf(line, query, h.character)
  {
    TrimmedReturn(line, TrimCR(line));
    FirstIsIndex(TrimCR(line), query, h.character);
    if HitOf(line, query, h.character) {
      var text :| WithoutReturn(line, text) && FirstAt(text, query, h.character);
      TrimmedReturn(line, text);
    }
  }

  lemma {:induction false} HitsInAre(lines: seq<string>, query: string, file: nat, number: nat, h: Hit)
    ensures h in HitsIn(lines, query, file, number)
       <==> h.file == file && number <= h.line < number + |lines| && HitOf(lines[h.line - number], query, h.character)
  {
    if lines != [] {
      LineHitIs(lines[0], query, file, number, h);
      HitsInAre(lines[1..], query, file, number + 1, h);
    }
  }

  ghost predicate HitInFile(data: string, query: string, line: nat, character: nat) {
    line < |Split(data, '\n')| && HitOf(Split(data, '\n')[line], query, character)
  }

  lemma HitsInFile(data: string, query: string, file: nat, h: Hit)
    ensures h in HitsIn(Split(data, NEWLINE), query, file, 0)
       <==> h.file == file && HitInFile(data, query, h.line, h.character)
  {
    HitsInAre(Split(data, NEWLINE), query, file, 0, h);
  }

  /** The matches are the first occurrences in the lines of the files, without one closing carriage return each. */
  lemma {:induction false} HitsExactly(files: seq<string>, query: string, file: nat, h: Hit)
    ensures h in AllHits(files, query, file)
       <==> file <= h.file < file + |files| && HitInFile(files[h.file - file], query, h.line, h.character)
  {
    if files != [] {
      HitsInFile(files[0], query, file, h);
      HitsExactly(files[1..], query, file + 1, h);
    }
  }

  predicate InFront(g: Hit, h: Hit) {
    g.file < h.file || (g.file == h.file && g.line < h.line)
  }

  ghost predicate InOrder(hits: seq<Hit>) {
    forall i, j :: 0 <= i < j < |hits| ==> InFront(hits[i], hits[j])
  }

  lemma OrderJoins(a: seq<Hit>, b: seq<Hit>)
    requires InOrder(a) && InOrder(b) && forall g, h :: g in a && h in b ==> InFront(g, h)
    ensures InOrder(a + b)
  {
  }

  lemma {:induction false} HitsInInOrder(lines: seq<string>, query: string, file: nat, number: nat)
    ensures InOrder(HitsIn(lines, query, file, number))
  {
    if lines != [] {
      var first, rest := LineHit(lines[0], query, file, number), HitsIn(lines[1..], query, file, number + 1);
      HitsInInOrder(lines[1..], query, file, number + 1);
      forall g, h | g in first && h in rest
        ensures InFront(g, h)
      {
        LineHitIs(lines[0], query, file, number, g);
        HitsInAre(lines[1..], query, file, number + 1, h);
      }
      OrderJoins(first, rest);
    }
  }

  /** They come file by file and line by line, each line at most once. */
  lemma {:induction false} HitsInOrder(files: seq<string>, query: string, file: nat)
    ensures InOrder(AllHits(files, query, file))
  {
    if files != [] {
      var first, rest := HitsIn(Split(files[0], NEWLINE), query, file, 0), AllHits(files[1..], query, file + 1);
      HitsInInOrder(Split(files[0], NEWLINE), query, file, 0);
      HitsInOrder(files[1..], query, file + 1);
      forall g, h | g in first && h in rest
        ensures InFront(g, h)
      {
        HitsInAre(Split(files[0], NEWLINE), query, file, 0, g);
        HitsExactly(files[1..], query, file + 1, h);
      }
      OrderJoins(first, rest);
    }
  }
}
