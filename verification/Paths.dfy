/** Slash-separated paths: Go's path.Clean and path.Join, and what a cleaned absolute path looks like. */
module Paths {
  import opened Text

  const SLASH := '/'

  /** One element of a path against the elements kept so far. */
  function Keep(out: seq<string>, part: string, rooted: bool): seq<string> {
    if part == "" || part == "." then out
    else if part == ".." then
      if out != [] && out[|out| - 1] != ".." then out[..|out| - 1]
      else if rooted then out
      else out + [".."]
    else out + [part]
  }

  function KeepAll(out: seq<string>, parts: seq<string>, rooted: bool): seq<string>
    decreases |parts|
  {
    if parts == [] then out else KeepAll(Keep(out, parts[0], rooted), parts[1..], rooted)
  }

  function Clean(p: string): string {
    if p == "" then "."
    else
      var rooted := p[0] == SLASH;
      var out := KeepAll([], Split(p, SLASH), rooted);
      if rooted then "/" + Join(out, SLASH) else if out == [] then "." else Join(out, SLASH)
  }

  /** path.Join of a non-empty root and a further path. */
  function JoinPath(root: string, rest: string): string
    requires root != ""
  {
    if rest == "" then Clean(root) else Clean(root + "/" + rest)
  }

  predicate IsWindowsAbsPath(p: string) {
    |p| >= 2 && ('A' <= p[0] <= 'Z' || 'a' <= p[0] <= 'z') && p[1] == ':'
  }

  function SlashOf(c: char): char {
    if c == '\\' then SLASH else c
  }

  /** strings.ReplaceAll(p, "\\", "/"). */
  function ToSlashes(p: string): string {
    if p == "" then "" else [SlashOf(p[0])] + ToSlashes(p[1..])
  }

  function NormalizePathSeparators(p: string): string {
    Clean(ToSlashes(p))
  }

  // ----- cleaned absolute paths

  predicate Plain(part: string) {
    part != "" && part != "." && part != ".." && SLASH !in part
  }

  predicate AllPlain(parts: seq<string>) {
    forall p :: p in parts ==> Plain(p)
  }

  /** Absolute for the host or the container, and unchanged by cleaning; the bare "/" is not meant. */
  predicate CleanAbsolute(p: string) {
    p != "" && p != "/" && Clean(p) == p && (p[0] == SLASH || IsWindowsAbsPath(p))
  }

  function Prefix(rooted: bool): string {
    if rooted then "/" else ""
  }

  lemma {:induction false} KeepAllPlain(out: seq<string>, parts: seq<string>, rooted: bool)
    requires AllPlain(parts)
    ensures KeepAll(out, parts, rooted) == out + parts
    decreases |parts|
  {
    if parts == [] {
      assert out + parts == out;
    } else {
      assert Plain(parts[0]);
      KeepAllPlain(out + [parts[0]], parts[1..], rooted);
      assert out + [parts[0]] + parts[1..] == out + parts;
    }
  }

  lemma JoinStart(parts: seq<string>)
    requires parts != [] && AllPlain(parts)
    ensures parts[0] != "" && Join(parts, SLASH) != "" && Join(parts, SLASH)[0] == parts[0][0] != SLASH
  {
    assert Plain(parts[0]);
  }

  /** A path made of plain elements is clean. */
  lemma PlainIsClean(parts: seq<string>, rooted: bool)
    requires parts != [] && AllPlain(parts)
    ensures Clean(Prefix(rooted) + Join(parts, SLASH)) == Prefix(rooted) + Join(parts, SLASH)
  {
    var joined := Join(parts, SLASH);
    JoinStart(parts);
    SplitJoin(parts, SLASH);
    if rooted {
      SplitPrefix("", SLASH, joined);
      assert "" + [SLASH] + joined == "/" + joined;
      assert ([""] + parts)[1..] == parts;
    } else {
      assert "" + joined == joined;
    }
    KeepAllPlain([], parts, rooted);
    assert [] + parts == parts;
  }

  /** What the kept elements always look like; without a root, ".." can only stand in front. */
  predicate Kept(out: seq<string>, rooted: bool) {
    && (forall p :: p in out ==> p != "" && p != "." && SLASH !in p && (rooted ==> p != ".."))
    && forall i, j :: 0 <= i < j < |out| && out[j] == ".." ==> out[i] == ".."
  }

  lemma KeepShape(out: seq<string>, part: string, rooted: bool)
    requires Kept(out, rooted) && SLASH !in part
    ensures Kept(Keep(out, part, rooted), rooted)
  {
    if part == ".." && !(out != [] && out[|out| - 1] != "..") && !rooted {
      forall i | 0 <= i < |out|
        ensures out[i] == ".."
      {
        assert i < |out| - 1 ==> out[|out| - 1] == "..";
      }
    }
  }

  lemma {:induction false} KeepAllShape(out: seq<string>, parts: seq<string>, rooted: bool)
    requires Kept(out, rooted) && forall p :: p in parts ==> SLASH !in p
    ensures Kept(KeepAll(out, parts, rooted), rooted)
    decreases |parts|
  {
    if parts != [] {
      KeepShape(out, parts[0], rooted);
      KeepAllShape(Keep(out, parts[0], rooted), parts[1..], rooted);
    }
  }

  /** The plain elements of a cleaned absolute path. */
  lemma CleanParts(p: string) returns (parts: seq<string>)
    requires CleanAbsolute(p)
    ensures parts != [] && AllPlain(parts) && p == Prefix(p[0] == SLASH) + Join(parts, SLASH)
  {
    var rooted := p[0] == SLASH;
    parts := KeepAll([], Split(p, SLASH), rooted);
    KeepAllShape([], Split(p, SLASH), rooted);
    if !rooted {
      assert "" + Join(parts, SLASH) == Join(parts, SLASH);
      assert parts[0] in parts && Join(parts, SLASH)[0] == parts[0][0];
      assert parts[0] != "..";
    }
  }

  /** Kept elements are kept again, the leading ".." of a relative path included. */
  lemma {:induction false} KeepAllKept(done: seq<string>, parts: seq<string>, rooted: bool)
    requires Kept(done + parts, rooted)
    ensures KeepAll(done, parts, rooted) == done + parts
    decreases |parts|
  {
    if parts == [] {
      assert done + parts == done;
    } else {
      var all := done + parts;
      assert all[|done|] == parts[0] && parts[0] in all;
      if parts[0] == ".." && done != [] {
        assert all[|done| - 1] == "..";
      }
      assert done + [parts[0]] + parts[1..] == all;
      KeepAllKept(done + [parts[0]], parts[1..], rooted);
    }
  }

  lemma CleanOfKept(out: seq<string>, rooted: bool)
    requires Kept(out, rooted) && out != []
    ensures Clean(Prefix(rooted) + Join(out, SLASH)) == Prefix(rooted) + Join(out, SLASH)
    ensures NoDoubleSlash(Prefix(rooted) + Join(out, SLASH))
  {
    var joined := Join(out, SLASH);
    assert out[0] in out && joined[0] == out[0][0] != SLASH;
    SplitJoin(out, SLASH);
    assert [] + out == out;
    KeepAllKept([], out, rooted);
    NoDoubleInJoin(out);
    if rooted {
      SplitPrefix("", SLASH, joined);
      assert "" + [SLASH] + joined == "/" + joined;
      assert ([""] + out)[1..] == out;
    } else {
      assert "" + joined == joined;
    }
  }

  predicate NoDoubleSlash(s: string) {
    forall i :: 0 <= i < |s| - 1 ==> !(s[i] == SLASH && s[i + 1] == SLASH)
  }

  lemma NoDoubleGlue(a: string, rest: string)
    requires a != "" && SLASH !in a && rest != "" && rest[0] != SLASH && NoDoubleSlash(rest)
    ensures NoDoubleSlash(a + [SLASH] + rest)
  {
    var s := a + [SLASH] + rest;
    forall i | 0 <= i < |s| - 1
      ensures !(s[i] == SLASH && s[i + 1] == SLASH)
    {
      if i < |a| {
        assert s[i] == a[i] && a[i] in a;
      } else if i > |a| {
        assert s[i] == rest[i - |a| - 1] && s[i + 1] == rest[i - |a|];
      }
    }
  }

  lemma NoDoublePlain(a: string)
    requires SLASH !in a
    ensures NoDoubleSlash(a)
  {
    forall i | 0 <= i < |a| - 1
      ensures a[i] != SLASH
    {
      assert a[i] in a;
    }
  }

  lemma {:induction false} NoDoubleInJoin(parts: seq<string>)
    requires forall p :: p in parts ==> p != "" && SLASH !in p
    ensures NoDoubleSlash(Join(parts, SLASH))
    ensures parts != [] ==> Join(parts, SLASH) != "" && Join(parts, SLASH)[0] != SLASH
  {
    if parts != [] {
      assert parts[0] in parts && parts[0][0] in parts[0];
      if |parts| > 1 {
        assert forall p :: p in parts[1..] ==> p in parts;
        NoDoubleInJoin(parts[1..]);
        NoDoubleGlue(parts[0], Join(parts[1..], SLASH));
      } else {
        NoDoublePlain(parts[0]);
      }
    }
  }

  lemma CleanBare()
    ensures Clean(".") == "." && Clean("/") == "/"
  {
    SplitPlain(".", SLASH);
    SplitPrefix("", SLASH, "");
    assert "" + [SLASH] + "" == "/";
    assert Split("/", SLASH) == ["", ""];
    assert KeepAll([], [""], true) == [];
    assert ["", ""][1..] == [""];
    assert KeepAll([], ["."], false) == [];
  }

  /** Cleaning a second time changes nothing, and a cleaned path has no empty element. */
  lemma CleanTwice(p: string)
    ensures Clean(Clean(p)) == Clean(p) != ""
    ensures NoDoubleSlash(Clean(p))
  {
    CleanBare();
    if p != "" {
      var rooted := p[0] == SLASH;
      var out := KeepAll([], Split(p, SLASH), rooted);
      KeepAllShape([], Split(p, SLASH), rooted);
      if out != [] {
        CleanOfKept(out, rooted);
        assert "" + Join(out, SLASH) == Join(out, SLASH);
      }
    }
  }

  // ----- cleaning never makes a path longer

  function Cost(parts: seq<string>): nat {
    if parts == [] then 0 else |parts[0]| + 1 + Cost(parts[1..])
  }

  lemma {:induction false} JoinLength(parts: seq<string>)
    requires parts != []
    ensures |Join(parts, SLASH)| + 1 == Cost(parts)
  {
    if |parts| > 1 {
      JoinLength(parts[1..]);
    }
  }

  lemma {:induction false} CostAppend(a: seq<string>, b: seq<string>)
    ensures Cost(a + b) == Cost(a) + Cost(b)
  {
    if a == [] {
      assert a + b == b;
    } else {
      assert (a + b)[1..] == a[1..] + b;
      CostAppend(a[1..], b);
    }
  }

  lemma {:induction false} KeepAllCost(out: seq<string>, parts: seq<string>, rooted: bool)
    ensures Cost(KeepAll(out, parts, rooted)) <= Cost(out) + Cost(parts)
    decreases |parts|
  {
    if parts != [] {
      KeepAllCost(Keep(out, parts[0], rooted), parts[1..], rooted);
      CostAppend(out, [parts[0]]);
      assert [parts[0]][1..] == [];
      if out != [] {
        CostAppend(out[..|out| - 1], [out[|out| - 1]]);
        assert out[..|out| - 1] + [out[|out| - 1]] == out;
      }
    }
  }

  lemma CleanLength(p: string)
    requires p != ""
    ensures |Clean(p)| <= |p|
  {
    var parts := Split(p, SLASH);
    var rooted := p[0] == SLASH;
    JoinSplit(p, SLASH);
    JoinLength(parts);
    var rest := if rooted then parts[1..] else parts;
    var out := KeepAll([], rest, rooted);
    KeepAllCost([], rest, rooted);
    assert out == KeepAll([], parts, rooted);
    if out != [] {
      JoinLength(out);
    }
  }

  /** The paths below a root: the root itself, or the root continued with a slash. */
  predicate Continues(tail: string) {
    tail == "" || tail[0] == SLASH
  }

  function TailOf(rest: seq<string>): string {
    if rest == [] then "" else "/" + Join(rest, SLASH)
  }

  /** Cutting a cleaned path where an element begins leaves a cleaned root and plain elements. */
  lemma CutPath(root: string, tail: string) returns (rest: seq<string>)
    requires CleanAbsolute(root + tail) && Continues(tail) && |root| >= 2
    ensures CleanAbsolute(root)
    ensures AllPlain(rest) && tail == TailOf(rest)
  {
    if tail == "" {
      assert root + tail == root;
      return [];
    }
    var all := CleanParts(root + tail);
    var rooted := root[0] == SLASH;
    var body := root[|Prefix(rooted)|..];
    CutBody(root, tail, rooted, Join(all, SLASH));
    SplitJoin(all, SLASH);
    SplitGlue(body, SLASH, tail[1..]);
    var front := Split(body, SLASH);
    rest := Split(tail[1..], SLASH);
    assert all == front + rest;
    forall p | p in front || p in rest
      ensures Plain(p)
    {
      assert p in all;
    }
    JoinSplit(body, SLASH);
    JoinSplit(tail[1..], SLASH);
    PlainIsClean(front, rooted);
    assert root == Prefix(rooted) + body;
  }

  lemma CutBody(root: string, tail: string, rooted: bool, joined: string)
    requires root != "" && rooted == (root[0] == SLASH) && tail != "" && tail[0] == SLASH
    requires root + tail == Prefix(rooted) + joined
    ensures joined == root[|Prefix(rooted)|..] + ([SLASH] + tail[1..])
  {
    var prefix := Prefix(rooted);
    assert tail == [SLASH] + tail[1..];
    assert (root + tail)[|prefix|..] == joined;
    assert (root + tail)[|prefix|..] == root[|prefix|..] + tail;
  }

  /** Any cleaned root may be continued with the same tail. */
  lemma {:induction false} RootWithTail(root: string, rest: seq<string>)
    requires CleanAbsolute(root) && AllPlain(rest) && rest != []
    ensures Clean(root + "/" + Join(rest, SLASH)) == root + "/" + Join(rest, SLASH)
    ensures CleanAbsolute(root + "/" + Join(rest, SLASH))
  {
    var front := CleanParts(root);
    var rooted := root[0] == SLASH;
    JoinAppend(front, rest, SLASH);
    PlainIsClean(front + rest, rooted);
    assert root + "/" + Join(rest, SLASH) == Prefix(rooted) + Join(front + rest, SLASH);
  }

  lemma {:induction false} KeepAllAppend(out: seq<string>, a: seq<string>, b: seq<string>, rooted: bool)
    ensures KeepAll(out, a + b, rooted) == KeepAll(KeepAll(out, a, rooted), b, rooted)
    decreases |a|
  {
    if a == [] {
      assert a + b == b;
    } else {
      assert (a + b)[1..] == a[1..] + b;
      KeepAllAppend(Keep(out, a[0], rooted), a[1..], b, rooted);
    }
  }

  /** What Clean makes of the elements it has kept. */
  function Rejoin(out: seq<string>, rooted: bool): string {
    if out == [] && !rooted then "." else Prefix(rooted) + Join(out, SLASH)
  }

  lemma SplitRooted(front: seq<string>, rooted: bool)
    requires front != [] && AllPlain(front)
    ensures Split(Prefix(rooted) + Join(front, SLASH), SLASH) == (if rooted then [""] else []) + front
  {
    var joined := Join(front, SLASH);
    SplitJoin(front, SLASH);
    if rooted {
      SplitPrefix("", SLASH, joined);
      assert "" + [SLASH] + joined == "/" + joined;
    } else {
      assert "" + joined == joined && [] + front == front;
    }
  }

  /** Cleaning what stands behind a cleaned path starts from the elements of that path. */
  lemma CleanBehind(root: string, tail: string) returns (front: seq<string>)
    requires CleanAbsolute(root)
    ensures front != [] && AllPlain(front) && root == Prefix(root[0] == SLASH) + Join(front, SLASH)
    ensures Clean(root + "/" + tail) == Rejoin(KeepAll(front, Split(tail, SLASH), root[0] == SLASH), root[0] == SLASH)
  {
    front := CleanParts(root);
    var rooted := root[0] == SLASH;
    var first, parts := if rooted then [""] else [], Split(tail, SLASH);
    assert root + "/" + tail == root + ([SLASH] + tail);
    SplitGlue(root, SLASH, tail);
    SplitRooted(front, rooted);
    KeepAllAppend([], first + front, parts, rooted);
    KeepAllAppend([], first, front, rooted);
    assert KeepAll([], first, rooted) == [];
    KeepAllPlain([], front, rooted);
    assert [] + front == front;
    assert (root + "/" + tail)[0] == root[0];
  }

  // ----- cleaning brings in no other characters

  lemma {:induction false} SplitCharacters(s: string, c: char)
    requires c !in s
    ensures forall p :: p in Split(s, SLASH) ==> c !in p
  {
    if s != "" {
      SplitCharacters(s[1..], c);
    }
  }

  lemma {:induction false} JoinCharacters(parts: seq<string>, c: char)
    requires c != SLASH && forall p :: p in parts ==> c !in p
    ensures c !in Join(parts, SLASH)
  {
    if |parts| > 1 {
      assert forall p :: p in parts[1..] ==> p in parts;
      JoinCharacters(parts[1..], c);
    }
  }

  lemma {:induction false} KeepAllCharacters(out: seq<string>, parts: seq<string>, rooted: bool, c: char)
    requires c != '.' && forall p :: p in out || p in parts ==> c !in p
    ensures forall p :: p in KeepAll(out, parts, rooted) ==> c !in p
    decreases |parts|
  {
    if parts != [] {
      assert parts[0] in parts;
      KeepAllCharacters(Keep(out, parts[0], rooted), parts[1..], rooted, c);
    }
  }

  lemma CleanCharacters(p: string, c: char)
    requires c !in p && c != '.' && c != SLASH
    ensures c !in Clean(p)
  {
    if p != "" {
      SplitCharacters(p, c);
      var out := KeepAll([], Split(p, SLASH), p[0] == SLASH);
      KeepAllCharacters([], Split(p, SLASH), p[0] == SLASH, c);
      JoinCharacters(out, c);
    }
  }

  lemma {:induction false} JoinEnd(parts: seq<string>)
    requires parts != [] && forall p :: p in parts ==> p != "" && SLASH !in p
    ensures Join(parts, SLASH) != "" && Join(parts, SLASH)[|Join(parts, SLASH)| - 1] != SLASH
  {
    var first := parts[0];
    assert first in parts && first[|first| - 1] in first;
    if |parts| > 1 {
      assert forall p :: p in parts[1..] ==> p in parts;
      JoinEnd(parts[1..]);
    }
  }

  /** No cleaned path closes with a slash. */
  lemma CleanEnd(p: string)
    requires CleanAbsolute(p)
    ensures p[|p| - 1] != SLASH
  {
    var parts := CleanParts(p);
    JoinEnd(parts);
  }

  // ----- separators

  lemma {:induction false} ToSlashesPlain(p: string)
    requires '\\' !in p
    ensures ToSlashes(p) == p
  {
    if p != "" {
      ToSlashesPlain(p[1..]);
      assert [p[0]] + p[1..] == p;
    }
  }

  lemma {:induction false} ToSlashesClears(p: string)
    ensures '\\' !in ToSlashes(p)
  {
    if p != "" {
      ToSlashesClears(p[1..]);
    }
  }

  lemma {:induction false} ToSlashesCharacters(p: string, c: char)
    requires c !in p && c != SLASH
    ensures c !in ToSlashes(p)
  {
    if p != "" {
      ToSlashesCharacters(p[1..], c);
    }
  }

  /** Both kinds of separators become slashes, and nothing else changes. */
  lemma {:induction false} ToSlashesSame(p: string)
    ensures |ToSlashes(p)| == |p|
    ensures forall i :: 0 <= i < |p| ==> ToSlashes(p)[i] == if p[i] in "\\/" then '/' else p[i]
  {
    if p != "" {
      ToSlashesSame(p[1..]);
    }
  }

  // ----- what cleaning does, rule by rule, as the documentation of path.Clean lists them

  lemma {:induction false} SplitThree(a: string, middle: string, b: string)
    ensures Split(a + "/" + middle + "/" + b, SLASH) == Split(a, SLASH) + Split(middle, SLASH) + Split(b, SLASH)
  {
    SplitGlue(a + "/" + middle, SLASH, b);
    SplitGlue(a, SLASH, middle);
    assert a + "/" + middle == a + ([SLASH] + middle);
    assert a + "/" + middle + "/" + b == (a + "/" + middle) + ([SLASH] + b);
  }

  lemma CleanOfSplit(p: string, parts: seq<string>)
    requires p != "" && Split(p, SLASH) == parts
    ensures Clean(p) == Rejoin(KeepAll([], parts, p[0] == SLASH), p[0] == SLASH)
  {
    assert "" + Join(KeepAll([], parts, false), SLASH) == Join(KeepAll([], parts, false), SLASH);
  }

  lemma KeepWithout(a: seq<string>, middle: seq<string>, b: seq<string>, rooted: bool)
    requires KeepAll(KeepAll([], a, rooted), middle, rooted) == KeepAll([], a, rooted)
    ensures KeepAll([], a + middle + b, rooted) == KeepAll([], a + b, rooted)
  {
    KeepAllAppend([], a + middle, b, rooted);
    KeepAllAppend([], a, middle, rooted);
    KeepAllAppend([], a, b, rooted);
  }

  lemma FirstCharacter(a: string, rest: string)
    ensures (a + "/" + rest)[0] == SLASH <==> a == "" || a[0] == SLASH
  {
  }

  /** Elements in the middle that undo themselves might as well not be there. */
  lemma CleanWithout(a: string, middle: string, b: string)
    requires var rooted := a == "" || a[0] == SLASH;
      var out := KeepAll([], Split(a, SLASH), rooted);
      KeepAll(out, Split(middle, SLASH), rooted) == out
    ensures Clean(a + "/" + middle + "/" + b) == Clean(a + "/" + b)
  {
    var parts := Split(a, SLASH) + Split(middle, SLASH) + Split(b, SLASH);
    SplitThree(a, middle, b);
    SplitGlue(a, SLASH, b);
    assert a + "/" + b == a + ([SLASH] + b) && a + "/" + middle + "/" + b == a + "/" + (middle + "/" + b);
    FirstCharacter(a, middle + "/" + b);
    FirstCharacter(a, b);
    CleanOfSplit(a + "/" + middle + "/" + b, parts);
    CleanOfSplit(a + "/" + b, Split(a, SLASH) + Split(b, SLASH));
    KeepWithout(Split(a, SLASH), Split(middle, SLASH), Split(b, SLASH), a == "" || a[0] == SLASH);
  }

  lemma KeepOne(out: seq<string>, part: string, rooted: bool)
    requires part == "" || part == "." || (part == ".." && out == [] && rooted)
    ensures KeepAll(out, [part], rooted) == out
  {
    assert [part][1..] == [];
    assert KeepAll(Keep(out, part, rooted), [], rooted) == out;
  }

  /** Rule 1: several slashes are one. */
  lemma DoubledSlash(a: string, b: string)
    ensures Clean(a + "//" + b) == Clean(a + "/" + b)
  {
    var rooted := a == "" || a[0] == SLASH;
    KeepOne(KeepAll([], Split(a, SLASH), rooted), "", rooted);
    CleanWithout(a, "", b);
    assert a + "/" + "" + "/" + b == a + "//" + b;
  }

  /** Rule 2: the element "." goes. */
  lemma DotElement(a: string, b: string)
    ensures Clean(a + "/./" + b) == Clean(a + "/" + b)
  {
    var rooted := a == "" || a[0] == SLASH;
    SplitPlain(".", SLASH);
    KeepOne(KeepAll([], Split(a, SLASH), rooted), ".", rooted);
    CleanWithout(a, ".", b);
    assert a + "/" + "." + "/" + b == a + "/./" + b;
  }

  lemma KeepPair(out: seq<string>, x: string, rooted: bool)
    requires Plain(x)
    ensures KeepAll(out, [x, ".."], rooted) == out
  {
    var more := out + [x];
    assert [x, ".."][1..] == [".."] && [".."][1..] == [];
    assert more[..|more| - 1] == out && more[|more| - 1] == x;
    assert KeepAll(more, [".."], rooted) == KeepAll(out, [], rooted) == out;
  }

  lemma SplitPair(x: string)
    requires Plain(x)
    ensures Split(x + "/..", SLASH) == [x, ".."]
  {
    SplitGlue(x, SLASH, "..");
    SplitPlain(x, SLASH);
    SplitPlain("..", SLASH);
    assert x + "/.." == x + ([SLASH] + "..") && [x] + [".."] == [x, ".."];
  }

  /** Rule 3: the element ".." goes, and the element in front of it. */
  lemma ParentElement(a: string, x: string, b: string)
    requires Plain(x)
    ensures Clean(a + "/" + x + "/../" + b) == Clean(a + "/" + b)
  {
    var rooted := a == "" || a[0] == SLASH;
    SplitPair(x);
    KeepPair(KeepAll([], Split(a, SLASH), rooted), x, rooted);
    CleanWithout(a, x + "/..", b);
    assert a + "/" + (x + "/..") + "/" + b == a + "/" + x + "/../" + b;
  }

  /** Rule 4: the root is its own parent. */
  lemma ParentOfRoot(b: string)
    ensures Clean("/../" + b) == Clean("/" + b)
  {
    SplitPlain("..", SLASH);
    assert KeepAll([], [""], true) == [];
    KeepOne([], "..", true);
    CleanWithout("", "..", b);
    assert "" + "/" + ".." + "/" + b == "/../" + b && "" + "/" + b == "/" + b;
  }

  /** A closing slash goes, and so does a leading ".". */
  lemma ClosingSlash(p: string)
    requires p != ""
    ensures Clean(p + "/") == Clean(p)
    ensures p[0] != SLASH ==> Clean("./" + p) == Clean(p)
  {
    var rooted := p[0] == SLASH;
    var out := KeepAll([], Split(p, SLASH), rooted);
    SplitGlue(p, SLASH, "");
    assert p + "/" == p + ([SLASH] + "");
    KeepAllAppend([], Split(p, SLASH), [""], rooted);
    KeepOne(out, "", rooted);
    SplitGlue(".", SLASH, p);
    SplitPlain(".", SLASH);
    assert "./" + p == "." + ([SLASH] + p);
    KeepAllAppend([], ["."], Split(p, SLASH), false);
    KeepOne([], ".", false);
  }

  /** What no rule applies to stays: elements none of which is empty or ".", with any ".." in front of all others. */
  lemma NothingToClean(out: seq<string>, up: nat, rooted: bool)
    requires out != [] && up <= |out| && (rooted ==> up == 0)
    requires (forall i :: 0 <= i < up ==> out[i] == "..") && forall i :: up <= i < |out| ==> Plain(out[i])
    ensures Clean(Prefix(rooted) + Join(out, SLASH)) == Prefix(rooted) + Join(out, SLASH)
  {
    forall p | p in out
      ensures p != "" && p != "." && SLASH !in p && (rooted ==> p != "..")
    {
      var i :| 0 <= i < |out| && out[i] == p;
      assert i < up ==> SLASH !in out[i];
    }
    CleanOfKept(out, rooted);
  }

  lemma EmptyPath()
    ensures Clean("") == Clean(".") == "." && Clean("/") == "/"
  {
    CleanBare();
  }

  // ----- a path that is clean once its backslashes are slashes

  lemma {:induction false} ToSlashesJoin(a: string, b: string)
    ensures ToSlashes(a + b) == ToSlashes(a) + ToSlashes(b)
  {
    if a == "" {
      assert a + b == b;
    } else {
      assert (a + b)[1..] == a[1..] + b;
      ToSlashesJoin(a[1..], b);
    }
  }

  lemma SlashedGlue(a: string, rest: string)
    ensures Split(ToSlashes(a + [SLASH] + rest), SLASH) == Split(ToSlashes(a), SLASH) + Split(ToSlashes(rest), SLASH)
  {
    ToSlashesJoin(a + [SLASH], rest);
    ToSlashesJoin(a, [SLASH]);
    assert ToSlashes([SLASH]) == [SLASH];
    SplitGlue(ToSlashes(a), SLASH, ToSlashes(rest));
    assert ToSlashes(a) + [SLASH] + ToSlashes(rest) == ToSlashes(a) + ([SLASH] + ToSlashes(rest));
  }

  lemma {:induction false} SlashedParts(parts: seq<string>)
    requires parts != []
    ensures forall p, q :: p in parts && q in Split(ToSlashes(p), SLASH) ==>
              q in Split(ToSlashes(Join(parts, SLASH)), SLASH)
  {
    if |parts| > 1 {
      SlashedParts(parts[1..]);
      SlashedGlue(parts[0], Join(parts[1..], SLASH));
      assert forall p :: p in parts <==> p == parts[0] || p in parts[1..];
    }
  }

  lemma SlashedDots()
    ensures Split(ToSlashes(""), SLASH) == [""] && Split(ToSlashes("."), SLASH) == ["."]
    ensures Split(ToSlashes(".."), SLASH) == [".."]
  {
    ToSlashesPlain(".");
    ToSlashesPlain("..");
    SplitPlain(".", SLASH);
    SplitPlain("..", SLASH);
  }

  lemma CleanBeforeSlashes(p: string)
    requires "/" <= p && CleanAbsolute(ToSlashes(p))
    ensures Clean(p) == p
  {
    var body := p[1..];
    var parts := Split(body, SLASH);
    var plain := CleanParts(ToSlashes(p));
    assert ToSlashes(p) == "/" + ToSlashes(body);
    assert ToSlashes(body) == Join(plain, SLASH);
    SplitJoin(plain, SLASH);
    JoinSplit(body, SLASH);
    SlashedParts(parts);
    SlashedDots();
    forall part | part in parts
      ensures Plain(part)
    {
      assert "" !in plain && "." !in plain && ".." !in plain;
    }
    PlainIsClean(parts, true);
    assert p == "/" + body;
  }
}
