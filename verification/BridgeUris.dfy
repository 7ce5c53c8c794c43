/**
 NormalizeURIForLSP (bridge/bridge.go): the URI handed to the language server. `cwd` is the working
 directory, `other` decodes file URIs with a host, a query or a fragment; no mapper means that the
 bridge does not run in a container. Callers normalise a URI they have been given and then once
 more what they pass on: the results say what one round makes of an input and exactly when a second
 round agrees.
 */
module BridgeUris {
  import opened Wrappers
  import opened Text
  import opened Paths
  import opened FileUris
  import opened PathMap

  predicate IsRelative(uri: string) {
    !Contains(uri, "://") && !("/" <= uri) && !IsWindowsAbsPath(uri)
  }

  predicate Under(root: string, path: string) {
    path == root || root + "/" <= path
  }

  /** A relative path is meant below the container root. */
  function Resolve(m: Mapper, uri: string): string
    requires m.containerRoot != ""
  {
    if IsRelative(uri) then JoinPath(m.containerRoot, ToSlashes(uri)) else uri
  }

  function Route(m: Mapper, normalized: string, cwd: string, other: string -> Option<string>): string
    requires m.containerRoot != ""
  {
    var p := UriToFilePath(normalized, other);
    var slash := ToSlashes(p);
    if Under(TrimSuffixSlash(m.containerRoot), slash) then NormalizeUri(slash, cwd)
    else
      match HostToContainer(m, p, other)
      case Some(mapped) => NormalizeUri(mapped, cwd)
      case None => normalized
  }

  function NormalizeUriForLsp(mapper: Option<Mapper>, uri: string, cwd: string, other: string -> Option<string>): string
    requires mapper.Some? ==> mapper.value.containerRoot != ""
  {
    match mapper
    case None => NormalizeUri(uri, cwd)
    case Some(m) =>
      if !m.enabled then NormalizeUri(uri, cwd) else Route(m, NormalizeUri(Resolve(m, uri), cwd), cwd, other)
  }

  // ----- the normalised input is kept by a second round

  /** What is routed is never a relative path again, and normalising it changes nothing. */
  lemma NormalizedIsKept(m: Mapper, uri: string, cwd: string)
    requires "/" <= m.containerRoot && "/" <= cwd
    ensures var n := NormalizeUri(Resolve(m, uri), cwd);
      !IsRelative(n) && Resolve(m, n) == n && NormalizeUri(n, cwd) == n
  {
    var r := Resolve(m, uri);
    var n := NormalizeUri(r, cwd);
    NormalizeUriTwice(r, cwd);
    var t := TrimSpace(r);
    if IsRelative(uri) {
      CleanRooted(m.containerRoot);
      CleanRooted(m.containerRoot + "/" + ToSlashes(uri));
    }
    if Contains(r, "://") {
      TrimLeftContains(r, "://");
      TrimRightContains(TrimLeft(r), "://");
    } else {
      TrimRightStart(r, 0);
      TrimIsTight(r);
      if !("file:" <= t) && !Contains(t, "://") {
        var p := LocalPathUri(t, cwd);
        TrimTight(t);
        NotRelativeWithScheme(Escape(p));
      }
    }
  }

  // ----- where an input leads

  lemma UnderContinues(root: string, path: string)
    ensures Under(root, path) <==> root <= path && Continues(path[|root|..])
  {
    if root + "/" <= path {
      assert path[|root|] == (root + "/")[|root|];
    }
    if root <= path && path != root && Continues(path[|root|..]) {
      assert path[|root|..] != "";
      assert path[|root|] == SLASH;
      assert path[..|root| + 1] == root + "/";
    }
  }

  lemma RootIsTrimmed(m: Mapper)
    requires GoodRoots(m)
    ensures TrimSuffixSlash(m.containerRoot) == m.containerRoot
  {
    CleanEnd(m.containerRoot);
  }

  /** Where a path leads: it names a container path, or the mapper makes it one, or neither. */
  ghost function Target(m: Mapper, path: string): Option<string>
    requires GoodRoots(m)
  {
    if Under(m.containerRoot, ToSlashes(path)) then Some(ToSlashes(path))
    else if path == "" || FILE <= path || !HasPrefixFold(NormalizePathSeparators(path), m.hostRoot) then None
    else Some(Rebase(m.containerRoot, NormalizePathSeparators(path)[|m.hostRoot|..]))
  }

  /** A path that leads nowhere or, white space at the end and what it leaves behind aside, to itself. */
  ghost predicate Stays(m: Mapper, p: string)
    requires GoodRoots(m)
  {
    Target(m, p) == None || Clean(TrimSpace(Target(m, p).value)) == p
  }

  /** The path an input denotes. */
  function Denoted(m: Mapper, uri: string, cwd: string, other: string -> Option<string>): string
    requires m.containerRoot != ""
  {
    UriToFilePath(NormalizeUri(Resolve(m, uri), cwd), other)
  }

  /** One round on any input whose path leads somewhere. */
  lemma OneRound(m: Mapper, uri: string, cwd: string, other: string -> Option<string>)
    requires GoodRoots(m) && Target(m, Denoted(m, uri, cwd, other)).Some?
    ensures NormalizeUriForLsp(Some(m), uri, cwd, other)
         == NormalizeUri(Target(m, Denoted(m, uri, cwd, other)).value, cwd)
  {
    RootIsTrimmed(m);
  }

  /** An input that neither is in the container nor can be mapped is only normalised, once and for all. */
  lemma UnmappedIsKept(m: Mapper, uri: string, cwd: string, other: string -> Option<string>)
    requires GoodRoots(m) && "/" <= cwd
    requires var path := UriToFilePath(NormalizeUri(Resolve(m, uri), cwd), other);
      !Under(m.containerRoot, ToSlashes(path)) && HostToContainer(m, path, other) == None
    ensures var once := NormalizeUriForLsp(Some(m), uri, cwd, other);
      once == NormalizeUri(Resolve(m, uri), cwd) && NormalizeUriForLsp(Some(m), once, cwd, other) == once
  {
    RootIsTrimmed(m);
    NormalizedIsKept(m, uri, cwd);
  }

  // ----- the second round

  lemma UriDenotes(m: Mapper, p: string, cwd: string, other: string -> Option<string>)
    requires GoodRoots(m) && Canonical(p)
    ensures NormalizeUri(Resolve(m, FILE + Escape(p)), cwd) == FILE + Escape(p)
    ensures '%' !in p ==> Denoted(m, FILE + Escape(p), cwd, other) == p
  {
    NotRelativeWithScheme(Escape(p));
    EscapedUri(p);
    TrimTight(FILE + Escape(p));
    DecodesItsPath(p, other);
  }

  lemma SameUri(p: string, q: string)
    requires IsBytes(p) && IsBytes(q)
    ensures FILE + Escape(p) == FILE + Escape(q) <==> p == q
  {
    assert (FILE + Escape(p))[7..] == Escape(p) && (FILE + Escape(q))[7..] == Escape(q);
    if Escape(p) == Escape(q) {
      EscapeInjective(p, q);
    }
  }

  /** The path whose URI a rooted text becomes. */
  function UriPath(t: string): string {
    var c := Clean(TrimSpace(t));
    if |c| >= 2 && c[1] == ':' then "/" + c else c
  }

  lemma UriPathIsRooted(t: string)
    requires "/" <= t && IsBytes(t)
    ensures "/" <= UriPath(t) && IsBytes(UriPath(t))
  {
    TrimRightStart(t, 0);
    CleanRooted(TrimSpace(t));
    CleanBytes(TrimSpace(t));
  }

  lemma CleanTextUri(t: string, cwd: string)
    requires "/" <= t && Clean(t) == t
    ensures NormalizeUri(t, cwd) == FILE + Escape(UriPath(t))
  {
    var s := TrimSpace(t);
    RootedTextUri(t, cwd);
    TrimRightStart(t, 0);
    CleanTwice(t);
    NoScheme(s);
  }

  lemma UriPathIs(t: string, p: string)
    requires "/" <= t && Canonical(p)
    ensures UriPath(t) == p <==> Clean(TrimSpace(t)) == p
  {
    var s := TrimSpace(t);
    TrimRightStart(t, 0);
    CleanRooted(s);
    NoDoubleStart(Clean(s), p);
  }

  /** Which cleaned texts become the URI of a canonical path. */
  lemma UriOfCleanText(t: string, p: string, cwd: string)
    requires "/" <= t && Clean(t) == t && IsBytes(t) && Canonical(p)
    ensures NormalizeUri(t, cwd) == FILE + Escape(p) <==> Clean(TrimSpace(t)) == p
  {
    CleanTextUri(t, cwd);
    UriPathIsRooted(t);
    SameUri(UriPath(t), p);
    UriPathIs(t, p);
  }

  lemma NoDoubleStart(c: string, p: string)
    requires "/" <= c && Clean(p) == p
    ensures "/" + c != p
  {
    CleanTwice(p);
    assert ("/" + c)[1] == SLASH;
  }

  lemma TargetIsClean(m: Mapper, p: string)
    requires GoodRoots(m) && IsBytes(m.containerRoot) && Canonical(p) && Target(m, p).Some?
    ensures var t := Target(m, p).value;
      "/" <= t && Clean(t) == t && IsBytes(t)
  {
    ToSlashesPlain(p);
    NormalizedClean(p);
    if !Under(m.containerRoot, p) {
      RebaseIsBytes(m.containerRoot, p[|m.hostRoot|..]);
    }
  }

  lemma RebaseIsBytes(root: string, tail: string)
    requires "/" <= root && IsBytes(root) && IsBytes(tail)
    ensures "/" <= Rebase(root, tail) && Clean(Rebase(root, tail)) == Rebase(root, tail) && IsBytes(Rebase(root, tail))
  {
    var relative := TrimPrefix(tail, "/");
    var joined := if relative == "" then root else JoinPath(root, relative);
    if relative != "" {
      CleanBytes(root + "/" + relative);
      CleanRooted(root + "/" + relative);
    }
    CleanTwice(joined);
    CleanBytes(joined);
    CleanRooted(joined);
  }

  /** The URI of a canonical path without a percent sign is a fixed point exactly when the path stays. */
  lemma FixedExactlyWhenStaying(m: Mapper, p: string, cwd: string, other: string -> Option<string>)
    requires GoodRoots(m) && IsBytes(m.containerRoot) && "/" <= cwd && Canonical(p) && '%' !in p
    ensures NormalizeUriForLsp(Some(m), FILE + Escape(p), cwd, other) == FILE + Escape(p) <==> Stays(m, p)
  {
    var uri := FILE + Escape(p);
    UriDenotes(m, p, cwd, other);
    if Target(m, p) == None {
      assert !(FILE <= p) by { assert FILE[0] != SLASH; }
      NowhereToGo(m, p, other);
      UnmappedIsKept(m, uri, cwd, other);
    } else {
      OneRound(m, uri, cwd, other);
      TargetIsClean(m, p);
      UriOfCleanText(Target(m, p).value, p, cwd);
    }
  }

  lemma NowhereToGo(m: Mapper, p: string, other: string -> Option<string>)
    requires GoodRoots(m) && !(FILE <= p) && Target(m, p) == None
    ensures !Under(m.containerRoot, ToSlashes(p)) && HostToContainer(m, p, other) == None
  {
  }

  lemma TargetOfCanonical(m: Mapper, p: string)
    requires GoodRoots(m) && Canonical(p)
    ensures Under(m.containerRoot, p) ==> Target(m, p) == Some(p)
    ensures !Under(m.containerRoot, p) && HasPrefixFold(p, m.hostRoot) ==>
              Target(m, p) == Some(Rebase(m.containerRoot, p[|m.hostRoot|..]))
    ensures !Under(m.containerRoot, p) && !HasPrefixFold(p, m.hostRoot) ==> Target(m, p) == None
  {
    NormalizedClean(p);
    ToSlashesPlain(p);
    assert !(FILE <= p) by { assert FILE[0] != SLASH; }
  }

  /**
   Callers normalise twice. For every input that leads to a canonical path without a percent sign, in
   the container or through the mapper, the first round gives the URI of that path, and the second
   keeps it exactly when the path is below the container root, or is not matched by the host root, or
   is mapped to itself.
   */
  lemma SecondRoundExactly(m: Mapper, uri: string, p: string, cwd: string, other: string -> Option<string>)
    requires GoodRoots(m) && IsBytes(m.containerRoot) && "/" <= cwd
    requires Target(m, Denoted(m, uri, cwd, other)) == Some(p)
    requires Canonical(p) && '%' !in p
    ensures var once := NormalizeUriForLsp(Some(m), uri, cwd, other);
      && once == FILE + Escape(p)
      && (NormalizeUriForLsp(Some(m), once, cwd, other) == once
          <==> Under(m.containerRoot, p) || !HasPrefixFold(p, m.hostRoot)
               || Clean(TrimSpace(Rebase(m.containerRoot, p[|m.hostRoot|..]))) == p)
  {
    OneRound(m, uri, cwd, other);
    CleanPathUri(p, cwd);
    FixedExactlyWhenStaying(m, p, cwd, other);
    TargetOfCanonical(m, p);
    TrimTight(p);
  }

  lemma AbsoluteIsKept(m: Mapper, path: string)
    requires m.containerRoot != "" && ("/" <= path || IsWindowsAbsPath(path))
    ensures Resolve(m, path) == path
  {
  }

  /** A host or container path in either kind of separators is read back from the URI it is turned into. */
  lemma PathInput(m: Mapper, path: string, cwd: string, other: string -> Option<string>)
    requires m.containerRoot != "" && CleanAbsolute(ToSlashes(path)) && IsBytes(path) && Tight(path)
    requires ("/" <= path && NoDrive(path)) || IsWindowsAbsPath(path)
    requires '%' !in path
    ensures Denoted(m, path, cwd, other) == if "/" <= path then path else ToSlashes(path)
  {
    AbsoluteIsKept(m, path);
    if "/" <= path {
      CleanBeforeSlashes(path);
      CleanPathUri(path, cwd);
      DecodesItsPath(path, other);
      assert StripDrive(path) == path;
    } else {
      DriveInput(path, cwd, other);
    }
  }

  lemma DriveInput(path: string, cwd: string, other: string -> Option<string>)
    requires IsWindowsAbsPath(path) && CleanAbsolute(ToSlashes(path)) && IsBytes(path) && Tight(path) && '%' !in path
    ensures UriToFilePath(NormalizeUri(path, cwd), other) == ToSlashes(path)
  {
    var slash := ToSlashes(path);
    DrivePathUri(path, cwd);
    DriveSlashes(path);
    DecodesItsPath("/" + slash, other);
  }

  lemma DriveSlashes(path: string)
    requires IsWindowsAbsPath(path) && IsBytes(path) && '%' !in path
    ensures var p := "/" + ToSlashes(path);
      '%' !in p && IsBytes(p) && StripDrive(p) == ToSlashes(path)
  {
    ToSlashesSame(path);
    ToSlashesCharacters(path, '%');
  }

  lemma HostTarget(m: Mapper, path: string)
    requires GoodRoots(m) && CleanAbsolute(ToSlashes(path)) && !(FILE <= path)
    requires !Under(m.containerRoot, ToSlashes(path)) && HasPrefixFold(ToSlashes(path), m.hostRoot)
    ensures Target(m, path) == Some(Rebase(m.containerRoot, ToSlashes(path)[|m.hostRoot|..]))
  {
    assert path != "";
  }

  /**
   A host path below the host root, in either kind of separators, arrives at the server as the URI of its
   container path, however often it is normalised.
   */
  lemma HostPathArrives(m: Mapper, path: string, cwd: string, other: string -> Option<string>)
    requires GoodRoots(m) && "/" <= cwd && IsBytes(path) && Tight(path) && '%' !in path
    requires ("/" <= path && NoDrive(path)) || IsWindowsAbsPath(path)
    requires CleanAbsolute(ToSlashes(path))
    requires Below(m.hostRoot, ToSlashes(path)) && !Under(m.containerRoot, ToSlashes(path))
    requires Canonical(m.containerRoot + ToSlashes(path)[|m.hostRoot|..]) && '%' !in m.containerRoot
    ensures var image := m.containerRoot + ToSlashes(path)[|m.hostRoot|..];
      var once := NormalizeUriForLsp(Some(m), path, cwd, other);
      && once == FILE + Escape(image)
      && NormalizeUriForLsp(Some(m), once, cwd, other) == once
  {
    var slash := ToSlashes(path);
    var image := m.containerRoot + slash[|m.hostRoot|..];
    PathInput(m, path, cwd, other);
    SpelledTarget(m, path);
    ToSlashesCharacters(path, '%');
    RebasedCharacters(m, slash);
    SecondRoundExactly(m, path, image, cwd, other);
  }

  /** Either spelling leads to the container path. */
  lemma SpelledTarget(m: Mapper, path: string)
    requires GoodRoots(m) && CleanAbsolute(ToSlashes(path))
    requires Below(m.hostRoot, ToSlashes(path)) && !Under(m.containerRoot, ToSlashes(path))
    ensures var image := m.containerRoot + ToSlashes(path)[|m.hostRoot|..];
      Target(m, path) == Target(m, ToSlashes(path)) == Some(image) && Under(m.containerRoot, image)
  {
    ToSlashesClears(path);
    ToSlashesPlain(ToSlashes(path));
    BelowTarget(m, path);
    BelowTarget(m, ToSlashes(path));
  }

  lemma BelowTarget(m: Mapper, path: string)
    requires GoodRoots(m) && CleanAbsolute(ToSlashes(path))
    requires Below(m.hostRoot, ToSlashes(path)) && !Under(m.containerRoot, ToSlashes(path))
    ensures var image := m.containerRoot + ToSlashes(path)[|m.hostRoot|..];
      Target(m, path) == Some(image) && Under(m.containerRoot, image)
  {
    var slash := ToSlashes(path);
    var root, tail := slash[..|m.hostRoot|], slash[|m.hostRoot|..];
    assert slash == root + tail;
    RebaseContinues(root, m.containerRoot, tail);
    NoFilePath(path);
    HostTarget(m, path);
    UnderContinues(m.containerRoot, m.containerRoot + tail);
    assert (m.containerRoot + tail)[|m.containerRoot|..] == tail;
  }

  lemma NoFilePath(path: string)
    requires CleanAbsolute(ToSlashes(path))
    ensures !(FILE <= path)
  {
    assert FILE[0] == 'f' && FILE[1] == 'i';
    ToSlashesSame(path);
  }

  lemma RebasedCharacters(m: Mapper, path: string)
    requires |path| >= |m.hostRoot| && '%' !in path && '%' !in m.containerRoot
    requires IsBytes(m.containerRoot + path[|m.hostRoot|..])
    ensures '%' !in m.containerRoot + path[|m.hostRoot|..] && IsBytes(m.containerRoot)
  {
    var image := m.containerRoot + path[|m.hostRoot|..];
    assert forall i :: 0 <= i < |m.containerRoot| ==> image[i] == m.containerRoot[i];
  }

  /** Outside a container a path becomes its own URI, and every input is normalised once and for all. */
  lemma WithoutContainer(mapper: Option<Mapper>, uri: string, cwd: string, other: string -> Option<string>)
    requires (mapper.Some? ==> !mapper.value.enabled && mapper.value.containerRoot != "") && "/" <= cwd
    ensures var once := NormalizeUriForLsp(mapper, uri, cwd, other);
      && NormalizeUriForLsp(mapper, once, cwd, other) == once
      && (Canonical(uri) ==> once == FILE + Escape(uri))
      && ("file:" <= TrimSpace(uri) ==> once == TrimSpace(uri))
  {
    NormalizeUriTwice(uri, cwd);
    if Canonical(uri) {
      CleanPathUri(uri, cwd);
    }
  }

  // ----- relative inputs

  /** A relative input names the path it leads to from the container root, in either kind of separators. */
  lemma RelativeArrives(m: Mapper, uri: string, cwd: string, other: string -> Option<string>)
    requires GoodRoots(m) && AllPathChars(m.containerRoot) && "/" <= cwd && IsRelative(uri) && uri != ""
    requires var p := Clean(m.containerRoot + "/" + ToSlashes(uri));
      Canonical(p) && '%' !in p && Under(m.containerRoot, p)
    ensures var p := Clean(m.containerRoot + "/" + ToSlashes(uri));
      && NormalizeUriForLsp(Some(m), uri, cwd, other) == FILE + Escape(p)
      && NormalizeUriForLsp(Some(m), FILE + Escape(p), cwd, other) == FILE + Escape(p)
  {
    var p := Clean(m.containerRoot + "/" + ToSlashes(uri));
    ToSlashesSame(uri);
    assert Resolve(m, uri) == p == Resolve(m, p);
    PathLikeItsUri(m, p, cwd, other);
    FixedExactlyWithoutPercent(m, p, cwd, other);
  }

  /** A Windows path relative to the root of the project. */
  lemma RelativeInput(cwd: string, other: string -> Option<string>)
    requires "/" <= cwd
    ensures NormalizeUriForLsp(Some(Mapper("/h", "/c", true)), "s\\a", cwd, other) == FILE + "/c/s/a"
  {
    var m := Mapper("/h", "/c", true);
    assert "/" + "h" == "/h" && "/" + "c" == "/c";
    RootsOf("h", "c");
    RelativeText();
    RelativeTarget();
    RelativeCharacters();
    PathText();
    EscapePathChars("/c/s/a");
    RelativeArrives(m, "s\\a", cwd, other);
  }

  lemma RelativeText()
    ensures ToSlashes("s\\a") == "s/a" && IsRelative("s\\a")
  {
    ToSlashesSame("s\\a");
    NoSlashNoScheme("s\\a");
  }

  lemma RelativeTarget()
    ensures "/c" + "/" + "s/a" == "/c/s/a" && Clean("/c/s/a") == "/c/s/a"
  {
    assert "/" + "c" + "/" + "s" == "/c/s";
    PairIsClean("c", "s");
    RootWithTail("/c/s", ["a"]);
    assert Join(["a"], SLASH) == "a" && "/c/s" + "/" + "a" == "/c/s/a";
  }

  lemma RelativeCharacters()
    ensures AllPathChars("/c/s/a") && IsBytes("/c/s/a") && '\\' !in "/c/s/a"
    ensures Tight("/c/s/a") && NoDrive("/c/s/a") && Under("/c", "/c/s/a")
  {
    WordyText("/c/s/a");
    assert "/c" + "/" == "/c/s/a"[..3];
  }

  lemma {:induction false} NoSlashNoScheme(s: string)
    requires SLASH !in s
    ensures !Contains(s, "://")
  {
    if s != "" {
      NoSlashNoScheme(s[1..]);
      assert "://"[1] == SLASH;
    }
  }

  // ----- percent signs

  /** A tight file URI whose path is below the container root becomes the URI of that path. */
  lemma RoutedUri(m: Mapper, e: string, q: string, cwd: string, other: string -> Option<string>)
    requires GoodRoots(m) && Tight(FILE + e)
    requires UriToFilePath(FILE + e, other) == q && Under(m.containerRoot, ToSlashes(q))
    ensures NormalizeUriForLsp(Some(m), FILE + e, cwd, other) == NormalizeUri(ToSlashes(q), cwd)
  {
    RootIsTrimmed(m);
    NotRelativeWithScheme(e);
    TrimTight(FILE + e);
  }

  /** A path and its URI are treated alike. */
  lemma PathLikeItsUri(m: Mapper, p: string, cwd: string, other: string -> Option<string>)
    requires GoodRoots(m) && Canonical(p)
    ensures NormalizeUriForLsp(Some(m), p, cwd, other) == NormalizeUriForLsp(Some(m), FILE + Escape(p), cwd, other)
  {
    CleanPathUri(p, cwd);
    EscapedUri(p);
    NotRelativeWithScheme(Escape(p));
    TrimTight(FILE + Escape(p));
  }

  lemma UnderEscaped(root: string, p: string)
    requires AllPathChars(root) && Under(root, p)
    ensures Under(root, Escape(p))
  {
    EscapePathChars(root);
    if p != root {
      var rest := p[|root| + 1..];
      assert p == root + "/" + rest;
      EscapeJoin(root + "/", rest);
      EscapeJoin(root, "/");
      assert Escape("/") == "/";
    }
  }

  lemma DecodedIsUnder(root: string, p: string, q: string)
    requires CleanAbsolute(root) && "/" <= root && AllPathChars(root) && '\\' !in root && NoDrive(p) && IsBytes(q)
    requires Under(root, p) && Unescape(p) == Some(q) && '%' in p
    ensures StripDrive(q) == q && "/" <= ToSlashes(q) && IsBytes(ToSlashes(q)) && |ToSlashes(q)| == |q|
    ensures Under(root, ToSlashes(q))
  {
    EscapePathChars(root);
    assert p != root;
    var rest := p[|root| + 1..];
    assert p == (root + "/") + rest;
    UnescapeBehind(root + "/", rest);
    var r := Unescape(rest).value;
    assert q == (root + "/") + r;
    SlashesBehind(root, q);
    NoDriveBehind(root, rest, r);
  }

  lemma NoDriveBehind(root: string, rest: string, r: string)
    requires |root| >= 2 && NoDrive(root + "/" + rest)
    ensures StripDrive(root + "/" + r) == root + "/" + r
  {
    var p, q := root + "/" + rest, root + "/" + r;
    assert p[2] == q[2] == if |root| == 2 then SLASH else root[2];
  }

  lemma SlashesBehind(root: string, q: string)
    requires "/" <= root && '\\' !in root && root + "/" <= q && IsBytes(q)
    ensures "/" <= ToSlashes(q) && IsBytes(ToSlashes(q)) && |ToSlashes(q)| == |q|
    ensures root + "/" <= ToSlashes(q)
  {
    ToSlashesSame(q);
    assert forall i :: 0 <= i < |root| ==> root[i] in root && q[i] == (root + "/")[i];
    assert q[|root|] == (root + "/")[|root|];
    assert ToSlashes(q)[..|root| + 1] == root + "/";
  }

  lemma UnderIsAbsolute(m: Mapper, p: string)
    requires GoodRoots(m) && Canonical(p) && Under(m.containerRoot, p)
    ensures CleanAbsolute(p)
  {
    assert |p| >= |m.containerRoot| >= 2;
  }

  /**
   When the second decoding fails, the encoded path is taken for the path: the first round encodes
   twice, and the next one decodes twice, so that the rounds never settle.
   */
  lemma UndecodableRounds(m: Mapper, p: string, cwd: string, other: string -> Option<string>)
    requires GoodRoots(m) && AllPathChars(m.containerRoot) && Canonical(p) && Under(m.containerRoot, p)
    requires Unescape(p) == None
    ensures NormalizeUriForLsp(Some(m), FILE + Escape(p), cwd, other) == FILE + Escape(Escape(p))
    ensures NormalizeUriForLsp(Some(m), FILE + Escape(Escape(p)), cwd, other) == FILE + Escape(p)
    ensures FILE + Escape(p) != FILE + Escape(Escape(p))
  {
    EncodesTwice(m, p, cwd, other);
    DecodesTwice(m, p, cwd, other);
    GrowsTwice(p);
  }

  lemma EncodesTwice(m: Mapper, p: string, cwd: string, other: string -> Option<string>)
    requires GoodRoots(m) && AllPathChars(m.containerRoot) && Canonical(p) && Under(m.containerRoot, p)
    requires Unescape(p) == None
    ensures NormalizeUriForLsp(Some(m), FILE + Escape(p), cwd, other) == FILE + Escape(Escape(p))
  {
    var e := Escape(p);
    UnderIsAbsolute(m, p);
    TakenLiterally(p, other);
    ToSlashesPlain(e);
    UnderEscaped(m.containerRoot, p);
    RoutedUri(m, e, e, cwd, other);
    EscapedIsClean(p);
    SecondCharacter(p);
    CleanPathUri(e, cwd);
  }

  lemma DecodesTwice(m: Mapper, p: string, cwd: string, other: string -> Option<string>)
    requires GoodRoots(m) && Canonical(p) && Under(m.containerRoot, p)
    ensures NormalizeUriForLsp(Some(m), FILE + Escape(Escape(p)), cwd, other) == FILE + Escape(p)
  {
    EscapeIsSafe(p);
    UnescapeEscape(p);
    EscapedIsBytes(p);
    DecodedUri(Escape(p), p, other);
    ToSlashesPlain(p);
    RoutedUri(m, Escape(Escape(p)), p, cwd, other);
    CleanPathUri(p, cwd);
  }

  lemma EscapedIsBytes(p: string)
    ensures IsBytes(Escape(p))
  {
    EscapeIsSafe(p);
    forall i | 0 <= i < |Escape(p)|
      ensures Escape(p)[i] as int < 256
    {
      assert IsPathChar(Escape(p)[i]) || Escape(p)[i] == '%';
    }
  }

  lemma GrowsTwice(p: string)
    requires Unescape(p) == None
    ensures FILE + Escape(p) != FILE + Escape(Escape(p))
  {
    if '%' !in p {
      UnescapeNoPercent(p);
    }
    EscapeIsSafe(p);
    EscapeGrows(Escape(p));
    assert |FILE + Escape(p)| == 7 + |Escape(p)| && |FILE + Escape(Escape(p))| == 7 + |Escape(Escape(p))|;
  }

  /** One round on the URI of a container path that decodes. */
  lemma DecodedRound(m: Mapper, p: string, q: string, cwd: string, other: string -> Option<string>)
    requires GoodRoots(m) && AllPathChars(m.containerRoot) && Canonical(p) && Under(m.containerRoot, p)
    requires Unescape(p) == Some(q)
    ensures NormalizeUriForLsp(Some(m), FILE + Escape(p), cwd, other) == NormalizeUri(ToSlashes(q), cwd)
    ensures "/" <= ToSlashes(q) && IsBytes(ToSlashes(q)) && |ToSlashes(q)| == |q|
    ensures Under(m.containerRoot, ToSlashes(q))
  {
    UnescapeBytes(p);
    if '%' in p {
      DecodedIsUnder(m.containerRoot, p, q);
    } else {
      UnescapeNoPercent(p);
      ToSlashesPlain(p);
      assert StripDrive(q) == q;
    }
    DecodedUri(p, q, other);
    RoutedUri(m, Escape(p), q, cwd, other);
  }

  /** A server URI of the container is a fixed point exactly when its path has no percent sign. */
  lemma FixedExactlyWithoutPercent(m: Mapper, p: string, cwd: string, other: string -> Option<string>)
    requires GoodRoots(m) && AllPathChars(m.containerRoot) && Canonical(p) && Under(m.containerRoot, p)
    ensures NormalizeUriForLsp(Some(m), FILE + Escape(p), cwd, other) == FILE + Escape(p) <==> '%' !in p
  {
    if Unescape(p) == None {
      if '%' !in p {
        UnescapeNoPercent(p);
      }
      UndecodableRounds(m, p, cwd, other);
    } else {
      var q := Unescape(p).value;
      DecodedRound(m, p, q, cwd, other);
      if '%' in p {
        UnescapeLength(p);
        UriOfShorterPath(ToSlashes(q), p, cwd);
      } else {
        UnescapeNoPercent(p);
        ToSlashesPlain(p);
        CleanPathUri(p, cwd);
      }
    }
  }

  /** What is left of a rooted text below the container root when white space behind it is dropped. */
  lemma TrimmedIsUnder(root: string, s: string)
    requires root != "" && Tight(root) && Under(root, s) && "/" <= s && '\\' !in s
    ensures "/" <= TrimSpace(s) && Tight(TrimSpace(s)) && '\\' !in TrimSpace(s) && Under(root, TrimSpace(s))
  {
    var t := TrimSpace(s);
    TrimIsTight(s);
    TrimRightStart(s, 0);
    if s == root {
      TrimTight(s);
    } else {
      assert s[|root|] == (root + "/")[|root|];
      TrimRightStart(s, |root|);
      assert t[..|root| + 1] == s[..|root| + 1] == root + "/";
    }
    assert forall i :: 0 <= i < |t| ==> t[i] == s[i];
  }

  /** A container path that reads like the URI of some other scheme is passed on as it is, in every round. */
  lemma SchemeIsKept(m: Mapper, t: string, cwd: string, other: string -> Option<string>)
    requires GoodRoots(m) && "/" <= t && Tight(t) && '\\' !in t && Under(m.containerRoot, t) && Contains(t, "://")
    ensures NormalizeUriForLsp(Some(m), t, cwd, other) == t
  {
    RootIsTrimmed(m);
    TrimTight(t);
    ToSlashesPlain(t);
    assert !("file:" <= t) by { assert "file:"[0] != SLASH; }
  }

  // ----- any URI of a rooted path

  /** The path that a file URI of the rooted path `c` is read as. */
  function ReadAs(c: string): string {
    match Unescape(c)
    case None => Escape(c)
    case Some(q) => StripDrive(q)
  }

  /** The path that the URI of `c` is read as leads nowhere, or back to `c`. */
  ghost predicate Settles(m: Mapper, c: string)
    requires GoodRoots(m)
  {
    match Target(m, ReadAs(c))
    case None => true
    case Some(t) => !Contains(TrimSpace(t), "://") && UriPath(t) == c
  }

  lemma ReadsUri(c: string, other: string -> Option<string>)
    requires "/" <= c && IsBytes(c)
    ensures UriToFilePath(FILE + Escape(c), other) == ReadAs(c) && IsBytes(ReadAs(c))
  {
    if Unescape(c) == None {
      TakenLiterally(c, other);
      EscapedIsBytes(c);
    } else {
      EscapedUri(c);
      TrimTight(FILE + Escape(c));
      UnescapeEscape(c);
      UnescapeBytes(c);
    }
  }

  lemma TargetIsRooted(m: Mapper, p: string)
    requires GoodRoots(m) && IsBytes(m.containerRoot) && IsBytes(p) && Target(m, p).Some?
    ensures "/" <= Target(m, p).value && IsBytes(Target(m, p).value)
  {
    var slash := ToSlashes(p);
    ToSlashesSame(p);
    if !Under(m.containerRoot, slash) {
      CleanBytes(slash);
      RebaseIsBytes(m.containerRoot, NormalizePathSeparators(p)[|m.hostRoot|..]);
    }
  }

  /** The URI of any rooted path is a fixed point exactly when the path settles. */
  lemma FixedExactlyWhenSettled(m: Mapper, c: string, cwd: string, other: string -> Option<string>)
    requires GoodRoots(m) && IsBytes(m.containerRoot) && "/" <= cwd && "/" <= c && IsBytes(c)
    ensures NormalizeUriForLsp(Some(m), FILE + Escape(c), cwd, other) == FILE + Escape(c) <==> Settles(m, c)
  {
    var uri := FILE + Escape(c);
    NotRelativeWithScheme(Escape(c));
    EscapedUri(c);
    TrimTight(uri);
    ReadsUri(c, other);
    assert Denoted(m, uri, cwd, other) == ReadAs(c);
    if Target(m, ReadAs(c)) == None {
      NowhereIsKept(m, c, cwd, other);
    } else {
      var t := Target(m, ReadAs(c)).value;
      OneRound(m, uri, cwd, other);
      TargetIsRooted(m, ReadAs(c));
      RootedTextUri(t, cwd);
      UriPathIsRooted(t);
      SameUri(UriPath(t), c);
      TextIsNoFileUri(t, Escape(c));
    }
  }

  lemma TextIsNoFileUri(t: string, e: string)
    requires "/" <= t
    ensures TrimSpace(t) != FILE + e
  {
    TrimRightStart(t, 0);
    assert FILE[0] != SLASH;
  }

  lemma ReadAsNoUri(c: string)
    requires "/" <= c
    ensures !(FILE <= ReadAs(c))
  {
    assert FILE[0] != SLASH && FILE[1] != ':';
    EscapeIsSafe(c);
    UnescapeBehind("/", c[1..]);
    assert "/" + c[1..] == c;
  }

  lemma NowhereIsKept(m: Mapper, c: string, cwd: string, other: string -> Option<string>)
    requires GoodRoots(m) && "/" <= cwd && "/" <= c && Target(m, ReadAs(c)) == None
    requires Denoted(m, FILE + Escape(c), cwd, other) == ReadAs(c)
    requires NormalizeUri(Resolve(m, FILE + Escape(c)), cwd) == FILE + Escape(c)
    ensures NormalizeUriForLsp(Some(m), FILE + Escape(c), cwd, other) == FILE + Escape(c)
  {
    ReadAsNoUri(c);
    NowhereToGo(m, ReadAs(c), other);
    UnmappedIsKept(m, FILE + Escape(c), cwd, other);
  }

  /** The text `q` of a container path, decoded once: what one round makes of it and when another agrees. */
  ghost predicate RoundsOn(m: Mapper, q: string, once: string, twice: string)
    requires GoodRoots(m)
  {
    var s := ToSlashes(q);
    var c := UriPath(s);
    if Contains(TrimSpace(s), "://") then once == TrimSpace(s) == twice
    else
      && once == FILE + Escape(c)
      && (twice == once <==> Settles(m, c))
      && (Canonical(c) && Under(m.containerRoot, c) ==> (Settles(m, c) <==> '%' !in c))
      && (Canonical(c) && '%' !in c ==> (Settles(m, c) <==> Stays(m, c)))
  }

  lemma TextRounds(m: Mapper, q: string, cwd: string, other: string -> Option<string>)
    requires GoodRoots(m) && AllPathChars(m.containerRoot) && "/" <= cwd
    requires "/" <= ToSlashes(q) && IsBytes(ToSlashes(q)) && Under(m.containerRoot, ToSlashes(q))
    ensures var once := NormalizeUri(ToSlashes(q), cwd);
      RoundsOn(m, q, once, NormalizeUriForLsp(Some(m), once, cwd, other))
  {
    var s := ToSlashes(q);
    var t, c := TrimSpace(s), UriPath(s);
    ToSlashesClears(q);
    PathCharsAreText(m.containerRoot);
    TrimmedIsUnder(m.containerRoot, s);
    RootedTextUri(s, cwd);
    if Contains(t, "://") {
      SchemeIsKept(m, t, cwd, other);
    } else {
      UriPathIsRooted(s);
      FixedExactlyWhenSettled(m, c, cwd, other);
      if Canonical(c) && Under(m.containerRoot, c) {
        FixedExactlyWithoutPercent(m, c, cwd, other);
      }
      if Canonical(c) && '%' !in c {
        FixedExactlyWhenStaying(m, c, cwd, other);
      }
    }
  }

  lemma PathCharsAreText(p: string)
    requires AllPathChars(p)
    ensures Tight(p) && IsBytes(p)
  {
    forall i | 0 <= i < |p|
      ensures p[i] as int < 256 && !IsSpace(p[i])
    {
      assert IsPathChar(p[i]);
    }
  }

  /**
   When both rounds agree for the name of a container path. A name that does not decode makes them
   alternate for ever. A name that decodes to `q` is first passed on as the text or the URI of `q`, cleaned,
   and both rounds agree exactly when that settles. For an ordinary path below the container root this means
   that it has no percent sign left, and for one without a percent sign, that it stays where it is.
   */
  lemma RoundsAgreeExactly(m: Mapper, p: string, cwd: string, other: string -> Option<string>)
    requires GoodRoots(m) && AllPathChars(m.containerRoot) && "/" <= cwd
    requires Canonical(p) && Under(m.containerRoot, p)
    ensures var once := NormalizeUriForLsp(Some(m), p, cwd, other);
      var twice := NormalizeUriForLsp(Some(m), once, cwd, other);
      match Unescape(p)
      case None => once == FILE + Escape(Escape(p)) && twice == FILE + Escape(p) && twice != once
      case Some(q) => RoundsOn(m, q, once, twice)
  {
    PathLikeItsUri(m, p, cwd, other);
    match Unescape(p) {
      case None => UndecodableRounds(m, p, cwd, other);
      case Some(q) =>
        DecodedRound(m, p, q, cwd, other);
        TextRounds(m, q, cwd, other);
    }
  }

  // ----- inputs on which the rounds differ

  lemma EscapeBetween(a: string, x: string, b: string)
    requires AllPathChars(a) && AllPathChars(b)
    ensures Escape(a + x + b) == a + Escape(x) + b
  {
    EscapePathChars(a);
    EscapePathChars(b);
    EscapeJoin(a + x, b);
    EscapeJoin(a, x);
  }

  lemma EscapePercents()
    ensures Escape("%") == "%25" && Escape("%25") == "%2525" && Unescape("%") == None
  {
    EscapeJoin("%", "25");
    assert "%" + "25" == "%25" && "%25" + "25" == "%2525";
    EscapePathChars("25");
    assert Escape("%") == EscapeChar('%') + Escape("");
  }

  /** The percent sign is encoded twice by the first round and once by the second, and so on. */
  lemma BarePercent(m: Mapper, a: string, cwd: string, other: string -> Option<string>)
    requires GoodRoots(m) && AllPathChars(m.containerRoot) && Canonical(a + "%") && Under(m.containerRoot, a + "%")
    requires AllPathChars(a)
    ensures NormalizeUriForLsp(Some(m), a + "%", cwd, other) == FILE + (a + "%2525")
    ensures NormalizeUriForLsp(Some(m), FILE + (a + "%2525"), cwd, other) == FILE + (a + "%25")
  {
    var p := a + "%";
    BarePercentEscapes(a);
    RoundsAgreeOnNone(m, p, cwd, other);
  }

  lemma BarePercentEscapes(a: string)
    requires AllPathChars(a)
    ensures Unescape(a + "%") == None
    ensures Escape(a + "%") == a + "%25" && Escape(a + "%25") == a + "%2525"
  {
    EscapePercents();
    EscapePathChars(a);
    UnescapeBehind(a, "%");
    EscapeBetween(a, "%", "");
    EscapeBetween(a, "%25", "");
    assert a + "%" + "" == a + "%" && a + "%25" + "" == a + "%25" && a + "%2525" + "" == a + "%2525";
  }

  lemma RoundsAgreeOnNone(m: Mapper, p: string, cwd: string, other: string -> Option<string>)
    requires GoodRoots(m) && AllPathChars(m.containerRoot) && Canonical(p) && Under(m.containerRoot, p)
    requires Unescape(p) == None
    ensures NormalizeUriForLsp(Some(m), p, cwd, other) == FILE + Escape(Escape(p))
    ensures NormalizeUriForLsp(Some(m), FILE + Escape(Escape(p)), cwd, other) == FILE + Escape(p)
  {
    PathLikeItsUri(m, p, cwd, other);
    UndecodableRounds(m, p, cwd, other);
  }

  /** A file name with a bare percent sign: "/c/100%" becomes ...100%2525, then ...100%25, and so on. */
  lemma BarePercentInput(cwd: string, other: string -> Option<string>)
    ensures var m := Mapper("/h", "/c", true);
      && GoodRoots(m)
      && NormalizeUriForLsp(Some(m), "/c/100%", cwd, other) == FILE + "/c/100%2525"
      && NormalizeUriForLsp(Some(m), FILE + "/c/100%2525", cwd, other) == FILE + "/c/100%25"
  {
    var m, a := Mapper("/h", "/c", true), "/c/100";
    assert "/" + "h" == "/h" && "/" + "c" == "/c";
    RootsOf("h", "c");
    PercentPath(a + "%");
    assert a + "%" == "/c/100%" && a + "%25" == "/c/100%25" && a + "%2525" == "/c/100%2525";
    PathText();
    BarePercent(m, a, cwd, other);
  }

  lemma PathText()
    ensures AllPathChars("/c") && AllPathChars("/c/100")
  {
  }

  lemma PercentPath(p: string)
    requires p == "/c/100%"
    ensures Canonical(p) && Under("/c", p)
  {
    assert "/c" + "/" == p[..3];
    assert p[0] == '/' && p[1] == 'c' && p[2] == '/' && p[3] == '1' && p[4] == '0' && p[5] == '0' && p[6] == '%';
    assert |p| == 7;
    assert "/" + "c" + "/" + "100%" == p;
    PairIsClean("c", "100%");
  }

  /** Letters and dots only. */
  predicate Wordy(p: string) {
    forall i :: 0 <= i < |p| ==> 'a' <= p[i] <= 'z' || p[i] == '.'
  }

  lemma WordyPath(p: string)
    requires "/" <= p && Wordy(p[1..]) && Plain(p[1..])
    ensures Canonical(p) && AllPathChars(p)
  {
    var part := p[1..];
    assert Join([part], SLASH) == part;
    PlainIsClean([part], true);
    assert p == "/" + part;
    assert forall i :: 1 <= i < |p| ==> p[i] == part[i - 1];
  }

  predicate WordyOrSlash(p: string) {
    forall i :: 0 <= i < |p| ==> p[i] == SLASH || 'a' <= p[i] <= 'z' || p[i] == '.'
  }

  lemma WordyGlue(a: string, b: string)
    requires WordyOrSlash(a) && WordyOrSlash(b)
    ensures WordyOrSlash(a + b)
  {
  }

  lemma WordyText(p: string)
    requires WordyOrSlash(p)
    ensures AllPathChars(p) && IsBytes(p) && '\\' !in p && Tight(p) && NoDrive(p)
  {
  }

  lemma WordyPair(p: string, a: string, b: string)
    requires Wordy(a) && Wordy(b) && Plain(a) && Plain(b) && p == "/" + a + "/" + b
    ensures Canonical(p) && AllPathChars(p)
  {
    WordyGlue("/", a);
    WordyGlue("/" + a, "/");
    WordyGlue("/" + a + "/", b);
    WordyText(p);
    PairIsClean(a, b);
  }

  lemma PairIsClean(a: string, b: string)
    requires Plain(a) && Plain(b)
    ensures CleanAbsolute("/" + a + "/" + b)
  {
    assert [a, b][1..] == [b];
    assert Join([a, b], SLASH) == a + "/" + b;
    PlainIsClean([a, b], true);
    assert "/" + (a + "/" + b) == "/" + a + "/" + b;
  }

  lemma UpAndOver(root: string, c: string, next: string)
    requires Plain(c) && Plain(next) && root == "/" + c
    ensures Rebase(root, "../" + next) == "/" + next
  {
    var tail := "../" + next;
    assert tail == ".." + [SLASH] + next && "../" == ".." + [SLASH];
    assert Join([c], SLASH) == c;
    PlainIsClean([c], true);
    var front := CleanBehind(root, tail);
    assert root[1..] == c == Join(front, SLASH);
    SplitJoin(front, SLASH);
    SplitPlain(c, SLASH);
    SplitPlain(next, SLASH);
    SplitPrefix("..", SLASH, next);
    assert ([".."] + [next])[1..] == [next];
    assert KeepAll([], [next], true) == [next];
    RebaseJoins(root, tail);
  }

  lemma MappedOnce(m: Mapper, path: string, image: string, cwd: string, other: string -> Option<string>)
    requires GoodRoots(m) && Canonical(path) && path != "/" && '%' !in path && !Under(m.containerRoot, path)
    requires HasPrefixFold(path, m.hostRoot) && Rebase(m.containerRoot, path[|m.hostRoot|..]) == image
    requires Canonical(image)
    ensures NormalizeUriForLsp(Some(m), path, cwd, other) == FILE + Escape(image)
    ensures NormalizeUriForLsp(Some(m), FILE + Escape(path), cwd, other) == FILE + Escape(image)
  {
    PathLikeItsUri(m, path, cwd, other);
    ToSlashesPlain(path);
    PathInput(m, path, cwd, other);
    TargetOfCanonical(m, path);
    OneRound(m, path, cwd, other);
    CleanPathUri(image, cwd);
  }

  ghost predicate Letter(s: string) {
    |s| == 1 && 'a' <= s[0] <= 'z'
  }

  lemma Words(a: string, x: string)
    requires Letter(a) && Letter(x)
    ensures Plain(a) && Wordy(a) && Plain(a + x) && Wordy(a + x) && Plain(a + "..") && Wordy(a + "..")
  {
    PlainWord(a);
    PlainWord(a + x);
    PlainWord(a + "..");
  }

  lemma PlainWord(s: string)
    requires s != "" && Wordy(s) && s[0] != '.'
    ensures Plain(s)
  {
  }

  lemma RootsOf(a: string, c: string)
    requires Letter(a) && Letter(c)
    ensures GoodRoots(Mapper("/" + a, "/" + c, true))
  {
    Words(a, c);
    Words(c, a);
    assert ("/" + a)[1..] == a && ("/" + c)[1..] == c;
    WordyPath("/" + a);
    WordyPath("/" + c);
  }

  lemma FirstTail(a: string, x: string, path: string)
    requires Letter(a) && path == "/" + (a + "..") + "/" + (a + x)
    ensures path[2..] == "../" + (a + x) && "/" + a <= path
  {
    assert "../" == ".." + "/";
  }

  lemma FirstHop(a: string, c: string, x: string, path: string, image: string, cwd: string,
                 other: string -> Option<string>)
    requires Letter(a) && Letter(c) && Letter(x) && a[0] != c[0]
    requires path == "/" + (a + "..") + "/" + (a + x) && image == "/" + (a + x)
    ensures var m := Mapper("/" + a, "/" + c, true);
      GoodRoots(m) && NormalizeUriForLsp(Some(m), path, cwd, other) == FILE + image
  {
    var m := Mapper("/" + a, "/" + c, true);
    RootsOf(a, c);
    Words(a, x);
    Words(c, x);
    assert image[1..] == a + x;
    WordyPath(image);
    WordyPair(path, a + "..", a + x);
    UpAndOver("/" + c, c, a + x);
    FirstTail(a, x, path);
    Outside(a, c, path);
    EscapePathChars(path);
    EscapePathChars(image);
    MappedOnce(m, path, image, cwd, other);
  }

  lemma SecondHop(a: string, c: string, x: string, image: string, last: string, cwd: string,
                  other: string -> Option<string>)
    requires Letter(a) && Letter(c) && Letter(x) && a[0] != c[0]
    requires image == "/" + (a + x) && last == "/" + c + "/" + x
    ensures var m := Mapper("/" + a, "/" + c, true);
      GoodRoots(m) && NormalizeUriForLsp(Some(m), FILE + image, cwd, other) == FILE + last
  {
    var m := Mapper("/" + a, "/" + c, true);
    RootsOf(a, c);
    Words(a, x);
    Words(c, x);
    Words(x, c);
    assert image[1..] == a + x;
    WordyPath(image);
    WordyPair(last, c, x);
    RebaseJoins("/" + c, x);
    assert "/" + a <= image;
    Outside(a, c, image);
    assert image[2..] == x;
    EscapePathChars(image);
    EscapePathChars(last);
    MappedOnce(m, image, last, cwd, other);
  }

  lemma Outside(a: string, c: string, path: string)
    requires |a| == |c| == 1 && a[0] != c[0] && "/" + a <= path
    ensures !Under("/" + c, path) && HasPrefixFold(path, "/" + a)
  {
    assert path[1] == ("/" + a)[1] == a[0];
    assert ("/" + c + "/")[1] == ("/" + c)[1] == c[0];
    assert path[..|"/" + a|] == "/" + a;
  }

  /** Where the match of the host root ends within an element the second round may map once more. */
  lemma MiddleMatchIsMappedTwice(a: string, c: string, x: string, cwd: string, other: string -> Option<string>)
    requires Letter(a) && Letter(c) && Letter(x) && a[0] != c[0]
    ensures var m := Mapper("/" + a, "/" + c, true);
      && GoodRoots(m)
      && NormalizeUriForLsp(Some(m), "/" + (a + "..") + "/" + (a + x), cwd, other) == FILE + ("/" + (a + x))
      && NormalizeUriForLsp(Some(m), FILE + ("/" + (a + x)), cwd, other) == FILE + ("/" + c + "/" + x)
  {
    FirstHop(a, c, x, "/" + (a + "..") + "/" + (a + x), "/" + (a + x), cwd, other);
    SecondHop(a, c, x, "/" + (a + x), "/" + c + "/" + x, cwd, other);
  }
}
