/**
 The mapping between host and container paths (utils/pathmap.go). Letter case is folded for ASCII
 letters. A mapper is a value: nothing changes it after construction.
 */
module PathMap {
  import opened Wrappers
  import opened Text
  import opened Paths
  import opened FileUris

  datatype Mapper = Mapper(hostRoot: string, containerRoot: string, enabled: bool)

  function TrimSuffixSlash(s: string): string {
    if s != "" && s[|s| - 1] == SLASH then s[..|s| - 1] else s
  }

  /** NewDockerPathMapper: the host root is cleaned, the container root loses one closing slash. */
  function NewMapper(hostRoot: string, containerRoot: string): Option<Mapper> {
    var root := TrimSuffixSlash(containerRoot);
    if hostRoot == "" || containerRoot == "" || !("/" <= root) then None
    else Some(Mapper(NormalizePathSeparators(hostRoot), root, true))
  }

  function Lower(c: char): char {
    if 'A' <= c <= 'Z' then c - 'A' + 'a' else c
  }

  predicate EqualFold(a: string, b: string) {
    |a| == |b| && forall i :: 0 <= i < |a| ==> Lower(a[i]) == Lower(b[i])
  }

  predicate HasPrefixFold(p: string, prefix: string) {
    |p| >= |prefix| && EqualFold(p[..|prefix|], prefix)
  }

  /** What both directions do once the prefix has been found. */
  function Rebase(root: string, tail: string): string
    requires root != ""
  {
    var relative := TrimPrefix(tail, "/");
    Clean(if relative == "" then root else JoinPath(root, relative))
  }

  function HostToContainer(m: Mapper, hostPath: string, other: string -> Option<string>): Option<string>
    requires m.containerRoot != ""
  {
    if !m.enabled then Some(hostPath)
    else if hostPath == "" then None
    else if FILE <= hostPath then
      match FileUriToPath(hostPath, other)
      case None => None
      case Some(p) =>
        match MapHostPath(m, p)
        case None => None
        case Some(c) => Some(FILE + c)
    else MapHostPath(m, hostPath)
  }

  function MapHostPath(m: Mapper, path: string): Option<string>
    requires m.containerRoot != ""
  {
    var clean := NormalizePathSeparators(path);
    if !HasPrefixFold(clean, m.hostRoot) then None
    else Some(Rebase(m.containerRoot, clean[|m.hostRoot|..]))
  }

  function ContainerToHost(m: Mapper, containerPath: string): Option<string>
    requires m.hostRoot != ""
  {
    if !m.enabled then Some(containerPath)
    else if containerPath == "" then None
    else
      var clean := NormalizePathSeparators(containerPath);
      if !(m.containerRoot <= clean) then None
      else Some(Rebase(m.hostRoot, clean[|m.containerRoot|..]))
  }

  /** Both roots are absolute and clean; the code only makes sure that the host root is clean. */
  predicate GoodRoots(m: Mapper) {
    && m.enabled
    && CleanAbsolute(m.hostRoot) && '\\' !in m.hostRoot
    && CleanAbsolute(m.containerRoot) && "/" <= m.containerRoot && '\\' !in m.containerRoot
  }

  lemma NormalizedClean(p: string)
    requires Clean(p) == p && '\\' !in p
    ensures NormalizePathSeparators(p) == p
  {
    ToSlashesPlain(p);
  }

  lemma RebaseTail(to: string, rest: seq<string>)
    requires CleanAbsolute(to) && AllPlain(rest)
    ensures Rebase(to, TailOf(rest)) == to + TailOf(rest) && CleanAbsolute(to + TailOf(rest))
  {
    if rest == [] {
      assert to + "" == to;
    } else {
      var relative := Join(rest, SLASH);
      JoinStart(rest);
      assert TailOf(rest)[1..] == relative;
      RootWithTail(to, rest);
      assert to + "/" + relative == to + TailOf(rest);
    }
  }

  /** A tail that starts a new element is put behind the other root as it is. */
  lemma RebaseContinues(from: string, to: string, tail: string)
    requires |from| >= 2 && CleanAbsolute(to) && CleanAbsolute(from + tail) && Continues(tail)
    ensures Rebase(to, tail) == to + tail && CleanAbsolute(to + tail)
  {
    var rest := CutPath(from, tail);
    RebaseTail(to, rest);
  }

  /** A path below a root: the root in any letter case, then nothing or a further element. */
  predicate Below(root: string, path: string) {
    HasPrefixFold(path, root) && Continues(path[|root|..])
  }

  lemma FoldedRootIsAbsolute(root: string, path: string)
    requires CleanAbsolute(root) && HasPrefixFold(path, root)
    ensures path != "" && (path[0] == SLASH <==> root[0] == SLASH)
    ensures !(FILE <= path)
  {
    assert Lower(path[..|root|][0]) == Lower(root[0]);
    if |root| >= 2 && root[0] != SLASH {
      assert Lower(path[..|root|][1]) == Lower(root[1]);
    }
  }

  /** What the constructor makes sure of, and what it leaves to whoever configures the container root. */
  lemma ConstructorCleansHostRoot(hostRoot: string, containerRoot: string)
    ensures NewMapper(hostRoot, containerRoot).Some? <==>
      hostRoot != "" && "/" <= containerRoot && containerRoot != "/"
    ensures NewMapper(hostRoot, containerRoot).Some? ==>
      var m := NewMapper(hostRoot, containerRoot).value;
      && Clean(m.hostRoot) == m.hostRoot && '\\' !in m.hostRoot
      && (GoodRoots(m) <==> CleanAbsolute(m.hostRoot) && Clean(m.containerRoot) == m.containerRoot
                            && '\\' !in m.containerRoot && m.containerRoot != "/")
      && m.enabled && m.hostRoot == Clean(ToSlashes(hostRoot))
      && containerRoot == m.containerRoot + if containerRoot[|containerRoot| - 1] == '/' then "/" else ""
  {
    ToSlashesClears(hostRoot);
    CleanCharacters(ToSlashes(hostRoot), '\\');
    CleanTwice(ToSlashes(hostRoot));
  }

  lemma NormalizeTwice(p: string)
    ensures NormalizePathSeparators(NormalizePathSeparators(p)) == NormalizePathSeparators(p)
    ensures !(FILE <= NormalizePathSeparators(p))
  {
    var clean := NormalizePathSeparators(p);
    ToSlashesClears(p);
    CleanCharacters(ToSlashes(p), '\\');
    CleanTwice(ToSlashes(p));
    ToSlashesPlain(clean);
    assert FILE[5] == SLASH && FILE[6] == SLASH;
  }

  /** Every spelling of a host path is mapped like its cleaned form. */
  lemma SpellingDoesNotMatter(m: Mapper, path: string, other: string -> Option<string>)
    requires m.enabled && m.containerRoot != "" && path != "" && !(FILE <= path)
    ensures HostToContainer(m, path, other) == HostToContainer(m, NormalizePathSeparators(path), other)
  {
    NormalizeTwice(path);
    CleanTwice(ToSlashes(path));
  }

  lemma HostForward(m: Mapper, path: string, other: string -> Option<string>)
    requires GoodRoots(m) && CleanAbsolute(path) && '\\' !in path && Below(m.hostRoot, path)
    ensures HostToContainer(m, path, other) == Some(m.containerRoot + path[|m.hostRoot|..])
    ensures CleanAbsolute(m.containerRoot + path[|m.hostRoot|..])
  {
    var root, tail := path[..|m.hostRoot|], path[|m.hostRoot|..];
    assert path == root + tail;
    FoldedRootIsAbsolute(m.hostRoot, path);
    NormalizedClean(path);
    RebaseContinues(root, m.containerRoot, tail);
  }

  lemma ContainerForward(m: Mapper, tail: string)
    requires GoodRoots(m) && CleanAbsolute(m.containerRoot + tail) && '\\' !in tail && Continues(tail)
    ensures ContainerToHost(m, m.containerRoot + tail) == Some(m.hostRoot + tail)
    ensures CleanAbsolute(m.hostRoot + tail)
  {
    var image := m.containerRoot + tail;
    NormalizedClean(image);
    assert image[|m.containerRoot|..] == tail;
    RebaseContinues(m.containerRoot, m.hostRoot, tail);
  }

  lemma SameUpToCase(root: string, path: string)
    requires HasPrefixFold(path, root)
    ensures EqualFold(root + path[|root|..], path)
  {
    assert path == path[..|root|] + path[|root|..];
  }

  /**
   A host path in any spelling that cleans to a path below the host root goes to the container root with the
   same tail, and comes back up to the case of the root.
   */
  lemma HostRoundTrip(m: Mapper, path: string, other: string -> Option<string>)
    requires GoodRoots(m) && path != "" && !(FILE <= path)
    requires CleanAbsolute(Clean(ToSlashes(path))) && Below(m.hostRoot, Clean(ToSlashes(path)))
    ensures var clean := Clean(ToSlashes(path));
      var tail := clean[|m.hostRoot|..];
      && HostToContainer(m, path, other) == Some(m.containerRoot + tail)
      && ContainerToHost(m, m.containerRoot + tail) == Some(m.hostRoot + tail)
      && CleanAbsolute(m.containerRoot + tail) && EqualFold(m.hostRoot + tail, clean)
  {
    var clean := Clean(ToSlashes(path));
    ToSlashesClears(path);
    CleanCharacters(ToSlashes(path), '\\');
    SpellingDoesNotMatter(m, path, other);
    HostForward(m, clean, other);
    ContainerForward(m, clean[|m.hostRoot|..]);
    SameUpToCase(m.hostRoot, clean);
  }

  /** A disabled mapper leaves every path alone, an enabled one refuses the empty path. */
  lemma Disabled(m: Mapper, path: string, other: string -> Option<string>)
    requires m.hostRoot != "" && m.containerRoot != ""
    ensures !m.enabled ==> HostToContainer(m, path, other) == ContainerToHost(m, path) == Some(path)
    ensures m.enabled ==> HostToContainer(m, "", other) == ContainerToHost(m, "") == None
  {
  }

  /** A file URI is mapped like the path it encodes; what comes back is a URI that is not encoded. */
  lemma UriIsMapped(m: Mapper, path: string, other: string -> Option<string>)
    requires m.enabled && m.containerRoot != "" && "/" <= path && IsBytes(path) && '%' !in path
    ensures HostToContainer(m, FILE + Escape(path), other)
         == match HostToContainer(m, StripDrive(path), other)
            case Some(c) => Some(FILE + c)
            case None => None
  {
    DecodesItsPath(path, other);
    assert !(FILE <= StripDrive(path)) by { assert FILE[0] != SLASH && FILE[1] != ':'; }
  }

  /** Folding sees two letters that differ in case only as the same, and nothing else. */
  lemma FoldsExactly(a: string, b: string)
    ensures EqualFold(a, b) <==> |a| == |b| && forall i :: 0 <= i < |a| ==> SameLetter(a[i], b[i])
  {
  }

  predicate SameLetter(c: char, d: char) {
    || c == d
    || ('a' <= c <= 'z' && c as int == d as int + 32)
    || ('a' <= d <= 'z' && d as int == c as int + 32)
  }

  /** A Windows path below a Windows root. */
  lemma WindowsInput(other: string -> Option<string>)
    ensures NewMapper("C:\\p", "/c/") == Some(Mapper("C:/p", "/c", true))
    ensures HostToContainer(Mapper("C:/p", "/c", true), "C:\\p\\a", other) == Some("/c/a")
  {
    var path := "C:\\p\\a";
    WindowsSpelling();
    WindowsRoots();
    WindowsPaths();
    assert !(FILE <= path) by { assert FILE[1] != path[1]; }
    HostRoundTrip(Mapper("C:/p", "/c", true), path, other);
  }

  lemma WindowsSpelling()
    ensures ToSlashes("C:\\p\\a") == "C:/p/a" && ToSlashes("C:\\p") == "C:/p"
  {
    ToSlashesSame("C:\\p\\a");
    ToSlashesSame("C:\\p");
  }

  lemma WindowsPaths()
    ensures Clean("C:/p/a") == "C:/p/a" && CleanAbsolute("C:/p/a") && Below("C:/p", "C:/p/a")
    ensures "/c" + "C:/p/a"[|"C:/p"|..] == "/c/a"
  {
    var root, path := "C:/p", "C:/p/a";
    TwoAreClean("C:", "p");
    assert "C:" + "/" + "p" == root;
    RootWithTail(root, ["a"]);
    assert Join(["a"], SLASH) == "a" && root + "/" + "a" == path;
    assert path[..4] == root && path[4..] == "/a";
  }

  lemma TwoAreClean(a: string, b: string)
    requires Plain(a) && Plain(b) && IsWindowsAbsPath(a)
    ensures CleanAbsolute(a + "/" + b)
  {
    assert [a, b][1..] == [b];
    assert Join([a, b], SLASH) == a + [SLASH] + b == a + "/" + b;
    PlainIsClean([a, b], false);
    assert "" + (a + "/" + b) == a + "/" + b;
  }

  lemma WindowsRoots()
    ensures NewMapper("C:\\p", "/c/") == Some(Mapper("C:/p", "/c", true)) && GoodRoots(Mapper("C:/p", "/c", true))
  {
    WindowsSpelling();
    TwoAreClean("C:", "p");
    assert "C:" + "/" + "p" == "C:/p";
    PlainIsClean(["c"], true);
    assert "/" + "c" == "/c" && "/c/"[..2] == "/c";
  }

  /** A container path below the container root goes to the host root with the same tail, and comes back. */
  lemma ContainerRoundTrip(m: Mapper, tail: string, other: string -> Option<string>)
    requires GoodRoots(m) && CleanAbsolute(m.containerRoot + tail) && '\\' !in tail && Continues(tail)
    ensures ContainerToHost(m, m.containerRoot + tail) == Some(m.hostRoot + tail)
    ensures HostToContainer(m, m.hostRoot + tail, other) == Some(m.containerRoot + tail)
    ensures Below(m.hostRoot, m.hostRoot + tail)
  {
    ContainerForward(m, tail);
    var host := m.hostRoot + tail;
    assert host[..|m.hostRoot|] == m.hostRoot && host[|m.hostRoot|..] == tail;
    HostForward(m, host, other);
  }

  // ----- the prefix test does not look for the end of an element

  lemma RebaseLength(root: string, tail: string)
    requires CleanAbsolute(root)
    ensures |Rebase(root, tail)| <= |root| + |tail| + 1
    ensures Continues(tail) ==> |Rebase(root, tail)| <= |root| + |tail|
  {
    var relative := TrimPrefix(tail, "/");
    if relative != "" {
      CleanTwice(root + "/" + relative);
      CleanLength(root + "/" + relative);
    }
  }

  /** Where a match in the middle of an element leads when the rest of that element is "..". */
  lemma ParentLength(root: string, tail: string)
    requires CleanAbsolute(root) && tail != "" && Split(tail, SLASH)[0] == ".."
    ensures |Rebase(root, tail)| < |root| || |Rebase(root, tail)| + 2 < |root| + |tail|
  {
    var front := CleanBehind(root, tail);
    var rooted := root[0] == SLASH;
    var parts := Split(tail, SLASH);
    JoinSplit(tail, SLASH);
    JoinLength(parts);
    JoinLength(front);
    ParentCost(front, parts, rooted);
    var out := KeepAll(front, parts, rooted);
    CleanTwice(root + "/" + tail);
    if out != [] {
      JoinLength(out);
    }
  }

  lemma ParentCost(front: seq<string>, parts: seq<string>, rooted: bool)
    requires front != [] && AllPlain(front) && parts != [] && parts[0] == ".."
    ensures Cost(KeepAll(front, parts, rooted)) + 5 <= Cost(front) + Cost(parts)
  {
    var last := front[|front| - 1];
    assert last in front && Plain(last);
    var up := front[..|front| - 1];
    assert front == up + [last];
    CostAppend(up, [last]);
    assert Cost([last]) == |last| + 1;
    KeepAllCost(up, parts[1..], rooted);
  }

  lemma RebaseIsClean(root: string, tail: string)
    requires root != "" && '\\' !in root && '\\' !in tail
    ensures NormalizePathSeparators(Rebase(root, tail)) == Rebase(root, tail)
  {
    var relative := TrimPrefix(tail, "/");
    var joined := if relative == "" then root else JoinPath(root, relative);
    if relative != "" {
      CleanCharacters(root + "/" + relative, '\\');
    }
    CleanTwice(joined);
    CleanCharacters(joined, '\\');
    NormalizedClean(Rebase(root, tail));
  }

  /** The elements of a tail that begins in the middle of an element: what is left of it, then plain ones. */
  lemma MiddleTail(root: string, tail: string) returns (head: string, rest: seq<string>)
    requires CleanAbsolute(root + tail) && |root| >= 2 && tail != "" && tail[0] != SLASH
    ensures head != "" && SLASH !in head && AllPlain(rest)
    ensures Split(tail, SLASH) == [head] + rest && Join([head] + rest, SLASH) == tail
  {
    var parts := Split(tail, SLASH);
    JoinSplit(tail, SLASH);
    head, rest := parts[0], parts[1..];
    assert parts == [head] + rest;
    if rest != [] {
      var joined := Join(rest, SLASH);
      assert root + tail == (root + head) + ("/" + joined);
      var plain := CutPath(root + head, "/" + joined);
      assert ("/" + joined)[1..] == joined == ("/" + Join(plain, SLASH))[1..];
      SplitJoin(plain, SLASH);
      SplitJoin(rest, SLASH);
    }
  }

  /** A sibling of a root is taken for a path below it. */
  lemma SiblingIsMapped(target: string, head: string, rest: seq<string>)
    requires CleanAbsolute(target) && AllPlain(rest) && Plain(head)
    ensures Rebase(target, Join([head] + rest, SLASH)) == target + TailOf([head] + rest)
  {
    var tail := Join([head] + rest, SLASH);
    JoinStart([head] + rest);
    RebaseJoins(target, tail);
    RootWithTail(target, [head] + rest);
    assert target + "/" + tail == target + TailOf([head] + rest);
  }

  lemma JoinBehind(front: seq<string>, rest: seq<string>, rooted: bool)
    requires front != []
    ensures Rejoin(front + rest, rooted) == Prefix(rooted) + Join(front, SLASH) + TailOf(rest)
  {
    if rest == [] {
      assert front + rest == front;
    } else {
      JoinAppend(front, rest, SLASH);
    }
  }

  lemma DotLength(rest: seq<string>)
    ensures |TailOf(rest)| < |Join(["."] + rest, SLASH)| && Continues(TailOf(rest))
  {
    assert (["."] + rest)[1..] == rest;
  }

  lemma RebaseJoins(root: string, tail: string)
    requires root != "" && tail != "" && tail[0] != SLASH
    ensures Rebase(root, tail) == Clean(root + "/" + tail)
  {
    CleanTwice(root + "/" + tail);
  }

  lemma DotIsDropped(cr: string, tail: string, rest: seq<string>)
    requires CleanAbsolute(cr) && AllPlain(rest)
    requires tail != "" && tail[0] != SLASH && Split(tail, SLASH) == ["."] + rest
    ensures Rebase(cr, tail) == cr + TailOf(rest)
  {
    var front := CleanBehind(cr, tail);
    assert (["."] + rest)[1..] == rest;
    KeepAllPlain(front, rest, cr[0] == SLASH);
    JoinBehind(front, rest, cr[0] == SLASH);
    RebaseJoins(cr, tail);
  }

  /** What a match in the middle of an element leaves behind its target root when it is mapped back. */
  ghost predicate LeftBehind(target: string, tail: string, back: string)
    requires target != ""
  {
    |Rebase(target, tail)| >= |target| && back == Rebase(target, tail)[|target|..]
  }

  /** A match in the middle of an element never comes back as the tail it was made from. */
  lemma MiddleTailIsLost(target: string, origin: string, root: string, tail: string, back: string)
    requires CleanAbsolute(target) && CleanAbsolute(origin)
    requires |root| >= 2 && CleanAbsolute(root + tail) && !Continues(tail)
    requires LeftBehind(target, tail, back)
    ensures |Rebase(origin, back)| != |origin| + |tail|
  {
    var head, rest := MiddleTail(root, tail);
    if head == "." {
      DotIsLost(target, origin, tail, rest, back);
    } else if head == ".." {
      ParentLength(target, tail);
      RebaseLength(origin, back);
    } else {
      SiblingIsLost(target, origin, tail, head, rest, back);
    }
  }

  lemma DotIsLost(target: string, origin: string, tail: string, rest: seq<string>, back: string)
    requires CleanAbsolute(target) && CleanAbsolute(origin) && AllPlain(rest)
    requires tail != "" && tail[0] != SLASH && Split(tail, SLASH) == ["."] + rest && tail == Join(["."] + rest, SLASH)
    requires LeftBehind(target, tail, back)
    ensures |Rebase(origin, back)| < |origin| + |tail|
  {
    DotIsDropped(target, tail, rest);
    assert back == TailOf(rest);
    DotLength(rest);
    RebaseLength(origin, back);
  }

  lemma SiblingIsLost(target: string, origin: string, tail: string, head: string, rest: seq<string>, back: string)
    requires CleanAbsolute(target) && CleanAbsolute(origin) && Plain(head) && AllPlain(rest)
    requires tail == Join([head] + rest, SLASH) && LeftBehind(target, tail, back)
    ensures |Rebase(origin, back)| == |origin| + 1 + |tail|
  {
    SiblingIsMapped(target, head, rest);
    Behind(target, TailOf([head] + rest));
    RebaseTail(origin, [head] + rest);
  }

  lemma Behind(root: string, tail: string)
    ensures (root + tail)[|root|..] == tail
  {
  }

  lemma HostMiddleIsLost(m: Mapper, root: string, tail: string)
    requires GoodRoots(m) && |root| >= 2 && CleanAbsolute(root + tail) && '\\' !in tail && !Continues(tail)
    ensures ContainerToHost(m, Rebase(m.containerRoot, tail)) != Some(m.hostRoot + tail)
  {
    RebaseIsClean(m.containerRoot, tail);
    var image := Rebase(m.containerRoot, tail);
    if m.containerRoot <= image {
      MiddleTailIsLost(m.containerRoot, m.hostRoot, root, tail, image[|m.containerRoot|..]);
    }
  }

  lemma ContainerMiddleIsLost(m: Mapper, tail: string, other: string -> Option<string>)
    requires GoodRoots(m) && CleanAbsolute(m.containerRoot + tail) && '\\' !in tail && !Continues(tail)
    ensures HostToContainer(m, Rebase(m.hostRoot, tail), other) != Some(m.containerRoot + tail)
  {
    RebaseIsClean(m.hostRoot, tail);
    var image := Rebase(m.hostRoot, tail);
    NormalizeTwice(image);
    if HasPrefixFold(image, m.hostRoot) {
      MiddleTailIsLost(m.hostRoot, m.containerRoot, m.containerRoot, tail, image[|m.hostRoot|..]);
    }
  }

  /**
   Which accepted paths are mapped faithfully: acceptance only needs the prefix, but the way back leads
   to the same tail below the host root exactly when the prefix ends where an element ends.
   */
  lemma FaithfulExactlyBelowRoot(m: Mapper, path: string, other: string -> Option<string>)
    requires GoodRoots(m) && CleanAbsolute(path) && '\\' !in path
    ensures HostToContainer(m, path, other).Some? <==> HasPrefixFold(path, m.hostRoot)
    ensures HasPrefixFold(path, m.hostRoot) ==>
      (ContainerToHost(m, HostToContainer(m, path, other).value) == Some(m.hostRoot + path[|m.hostRoot|..])
       <==> Below(m.hostRoot, path))
  {
    NormalizedClean(path);
    NotFileUri(path);
    if HasPrefixFold(path, m.hostRoot) {
      var root, tail := path[..|m.hostRoot|], path[|m.hostRoot|..];
      assert path == root + tail;
      if Continues(tail) {
        HostRoundTrip(m, path, other);
      } else {
        HostMiddleIsLost(m, root, tail);
      }
    }
  }

  lemma NotFileUri(path: string)
    requires CleanAbsolute(path)
    ensures !(FILE <= path)
  {
    assert FILE[0] == 'f' && FILE[1] == 'i';
  }

  /** The same for container paths, whose prefix is compared with its letter case. */
  lemma ContainerFaithfulExactly(m: Mapper, path: string, other: string -> Option<string>)
    requires GoodRoots(m) && CleanAbsolute(path) && '\\' !in path
    ensures ContainerToHost(m, path).Some? <==> m.containerRoot <= path
    ensures m.containerRoot <= path ==>
      (HostToContainer(m, ContainerToHost(m, path).value, other) == Some(path)
       <==> Continues(path[|m.containerRoot|..]))
  {
    NormalizedClean(path);
    if m.containerRoot <= path {
      var tail := path[|m.containerRoot|..];
      assert path == m.containerRoot + tail;
      if Continues(tail) {
        ContainerRoundTrip(m, tail, other);
      } else {
        ContainerMiddleIsLost(m, tail, other);
      }
    }
  }
}
