/**
 File URIs and local paths (utils/uri.go), on the bytes of a string. Percent-encoding is that of
 section 2.1 of RFC 3986. `other` stands for the decoding of file URIs that carry a host, a query
 or a fragment or are not of the form file:///path.
 */
module FileUris {
  import opened Wrappers
  import opened Text
  import opened Paths

  predicate IsBytes(s: string) {
    forall i :: 0 <= i < |s| ==> s[i] as int < 256
  }

  // ----- percent-encoding of paths

  function HexDigit(n: nat): char
    requires n < 16
  {
    "0123456789ABCDEF"[n]
  }

  function HexValue(c: char): Option<nat> {
    if '0' <= c <= '9' then Some(c as nat - '0' as nat)
    else if 'A' <= c <= 'F' then Some(c as nat - 'A' as nat + 10)
    else if 'a' <= c <= 'f' then Some(c as nat - 'a' as nat + 10)
    else None
  }

  /** Unreserved characters and those a path may carry as they are. */
  predicate IsPathChar(c: char) {
    'a' <= c <= 'z' || 'A' <= c <= 'Z' || '0' <= c <= '9' || c in "-_.~" || c in "$&+,/:;=@"
  }

  function EscapeChar(c: char): string {
    if IsPathChar(c) then [c] else ['%', HexDigit((c as int / 16) % 16), HexDigit(c as int % 16)]
  }

  function Escape(p: string): string {
    if p == "" then "" else EscapeChar(p[0]) + Escape(p[1..])
  }

  function Unescape(s: string): Option<string> {
    if s == "" then Some("")
    else if s[0] != '%' then
      match Unescape(s[1..])
      case Some(r) => Some([s[0]] + r)
      case None => None
    else if |s| < 3 || HexValue(s[1]) == None || HexValue(s[2]) == None then None
    else
      match Unescape(s[3..])
      case Some(r) => Some([(16 * HexValue(s[1]).value + HexValue(s[2]).value) as char] + r)
      case None => None
  }

  lemma HexRoundTrip(n: nat)
    requires n < 16
    ensures HexValue(HexDigit(n)) == Some(n)
  {
  }

  lemma HexPair(c: char)
    requires c as int < 256
    ensures 16 * ((c as int / 16) % 16) + c as int % 16 == c as int
  {
  }

  lemma UnescapeTriple(h: nat, l: nat, s: string, r: string)
    requires h < 16 && l < 16 && Unescape(s) == Some(r)
    ensures Unescape(['%', HexDigit(h), HexDigit(l)] + s) == Some([(16 * h + l) as char] + r)
  {
    HexRoundTrip(h);
    HexRoundTrip(l);
    assert (['%', HexDigit(h), HexDigit(l)] + s)[3..] == s;
  }

  lemma UnescapeStep(c: char, s: string, r: string)
    requires c as int < 256 && Unescape(s) == Some(r)
    ensures Unescape(EscapeChar(c) + s) == Some([c] + r)
  {
    if IsPathChar(c) {
      assert ([c] + s)[1..] == s;
    } else {
      HexPair(c);
      UnescapeTriple((c as int / 16) % 16, c as int % 16, s, r);
    }
  }

  /** Decoding undoes encoding. */
  lemma {:induction false} UnescapeEscape(p: string)
    requires IsBytes(p)
    ensures Unescape(Escape(p)) == Some(p)
  {
    if p != "" {
      UnescapeEscape(p[1..]);
      UnescapeStep(p[0], Escape(p[1..]), p[1..]);
      assert [p[0]] + p[1..] == p;
    }
  }

  lemma {:induction false} UnescapeLength(s: string)
    ensures Unescape(s).Some? ==> |Unescape(s).value| <= |s|
    ensures Unescape(s).Some? && '%' in s ==> |Unescape(s).value| + 2 <= |s|
  {
    if s != "" {
      if s[0] != '%' {
        UnescapeLength(s[1..]);
      } else if |s| >= 3 {
        UnescapeLength(s[3..]);
      }
    }
  }

  /** A second decoding changes nothing exactly when there is no percent sign left. */
  lemma UnescapeFixed(s: string)
    ensures Unescape(s) == Some(s) <==> '%' !in s
  {
    UnescapeLength(s);
    if '%' !in s {
      UnescapeNoPercent(s);
    }
  }

  lemma {:induction false} UnescapeNoPercent(s: string)
    requires '%' !in s
    ensures Unescape(s) == Some(s)
  {
    if s != "" {
      UnescapeNoPercent(s[1..]);
      assert [s[0]] + s[1..] == s;
    }
  }

  /** An encoded path contains only path characters, percent signs and hexadecimal digits. */
  predicate UriSafe(s: string) {
    forall i :: 0 <= i < |s| ==> IsPathChar(s[i]) || s[i] == '%'
  }

  lemma {:induction false} EscapeIsSafe(p: string)
    ensures UriSafe(Escape(p))
    ensures p != "" && IsPathChar(p[0]) ==> Escape(p) != "" && Escape(p)[0] == p[0]
    ensures '%' in p ==> '%' in Escape(p)
    ensures |Escape(p)| >= |p|
  {
    if p != "" {
      EscapeIsSafe(p[1..]);
      HexIsPathChar((p[0] as int / 16) % 16);
      HexIsPathChar(p[0] as int % 16);
    }
  }

  lemma HexIsPathChar(n: nat)
    requires n < 16
    ensures IsPathChar(HexDigit(n))
  {
  }

  lemma {:induction false} EscapeJoin(a: string, b: string)
    ensures Escape(a + b) == Escape(a) + Escape(b)
  {
    if a == "" {
      assert a + b == b;
    } else {
      assert (a + b)[1..] == a[1..] + b;
      EscapeJoin(a[1..], b);
      assert EscapeChar(a[0]) + (Escape(a[1..]) + Escape(b)) == EscapeChar(a[0]) + Escape(a[1..]) + Escape(b);
    }
  }

  // ----- the conversions

  const FILE := "file://"

  predicate Contains(s: string, sub: string) {
    sub <= s || (s != "" && Contains(s[1..], sub))
  }

  /** file:///path without query, fragment or control characters. */
  predicate IsLocalFileUri(uri: string) {
    "file:///" <= uri && forall i :: 0 <= i < |uri| ==> uri[i] != '?' && uri[i] != '#' && 32 <= uri[i] as int != 127
  }

  /** A drive letter loses the slash in front of it. */
  function StripDrive(p: string): string {
    if "/" <= p && |p| >= 3 && p[2] == ':' then p[1..] else p
  }

  /** The path is decoded when the URI is parsed and then once more. */
  function FileUriToPath(uri: string, other: string -> Option<string>): Option<string> {
    if !IsLocalFileUri(uri) then other(uri)
    else
      match Unescape(uri[7..])
      case None => None
      case Some(parsed) =>
        match Unescape(parsed)
        case None => None
        case Some(p) => Some(StripDrive(p))
  }

  function TrimPrefix(s: string, prefix: string): string {
    if prefix <= s then s[|prefix|..] else s
  }

  function UriToFilePath(uri: string, other: string -> Option<string>): string {
    var t := TrimSpace(uri);
    if "file:" <= t then
      match FileUriToPath(t, other)
      case Some(p) => p
      case None => TrimPrefix(TrimPrefix(t, FILE), "file:")
    else t
  }

  /** strings.ReplaceAll(s, "//", "/"). */
  function SingleSlashes(s: string): string {
    if s == "" then "" else if "//" <= s then "/" + SingleSlashes(s[2..]) else [s[0]] + SingleSlashes(s[1..])
  }

  /** PathToFileURI of a path that is not blank; `cwd` is the working directory. */
  function PathToFileUri(path: string, cwd: string): string
    requires path != ""
  {
    var t := TrimSpace(path);
    var slashPath := if IsWindowsAbsPath(t) then SingleSlashes(ToSlashes(t))
                     else Clean(if "/" <= t then Clean(t) else Clean(cwd + "/" + t));
    FILE + Escape(if |slashPath| >= 2 && slashPath[1] == ':' then "/" + slashPath else slashPath)
  }

  function NormalizeUri(uri: string, cwd: string): string {
    var t := TrimSpace(uri);
    if t == "" || "file:" <= t || Contains(t, "://") then t else PathToFileUri(t, cwd)
  }

  // ----- what the conversions undo and what they leave alone

  lemma SafeUri(e: string)
    requires UriSafe(e) && "/" <= e
    ensures IsLocalFileUri(FILE + e) && Tight(FILE + e) && (FILE + e)[7..] == e
  {
    var uri := FILE + e;
    assert UriSafe(FILE);
    forall i | 0 <= i < |uri|
      ensures IsPathChar(uri[i]) || uri[i] == '%'
    {
      assert uri[i] == if i < 7 then FILE[i] else e[i - 7];
    }
    assert uri[7] == SLASH;
  }

  lemma EscapedUri(p: string)
    requires "/" <= p
    ensures IsLocalFileUri(FILE + Escape(p)) && Tight(FILE + Escape(p))
    ensures (FILE + Escape(p))[7..] == Escape(p)
  {
    EscapeIsSafe(p);
    SafeUri(Escape(p));
  }

  /** The path of an encoded URI comes back exactly when it has no percent sign: it is decoded twice. */
  lemma DecodesItsPath(p: string, other: string -> Option<string>)
    requires IsBytes(p) && "/" <= p
    ensures FileUriToPath(FILE + Escape(p), other) == Some(StripDrive(p)) <==> '%' !in p
    ensures '%' !in p ==> UriToFilePath(FILE + Escape(p), other) == StripDrive(p)
  {
    EscapedUri(p);
    UnescapeEscape(p);
    UnescapeFixed(p);
    UnescapeLength(p);
    TrimTight(FILE + Escape(p));
  }

  lemma {:induction false} NoScheme(p: string)
    requires NoDoubleSlash(p)
    ensures !Contains(p, "://")
  {
    if p != "" {
      NoScheme(p[1..]);
      assert "://"[1] == SLASH && "://"[2] == SLASH;
    }
  }

  /** A cleaned absolute path becomes the URI that encodes it. */
  lemma CleanPathUri(p: string, cwd: string)
    requires "/" <= p && Clean(p) == p && Tight(p) && (|p| < 2 || p[1] != ':')
    ensures NormalizeUri(p, cwd) == FILE + Escape(p)
  {
    CleanTwice(p);
    NoScheme(p);
    TrimTight(p);
  }

  lemma DriveIsKept(p: string)
    requires IsWindowsAbsPath(p)
    ensures IsWindowsAbsPath(SingleSlashes(ToSlashes(p)))
  {
    var s := ToSlashes(p);
    var s1 := ToSlashes(p[1..]);
    assert s1 == [':'] + ToSlashes(p[1..][1..]) && s1[0] == ':';
    assert s == [p[0]] + s1 && s[0] != SLASH && s[1..] == s1;
    assert !("//" <= s1) by { assert "//"[0] == SLASH; }
    assert !("//" <= s) by { assert "//"[0] == SLASH; }
    assert SingleSlashes(s1) == [':'] + SingleSlashes(s1[1..]);
    assert SingleSlashes(s) == [p[0]] + SingleSlashes(s1);
  }

  lemma CleanRooted(p: string)
    requires "/" <= p
    ensures "/" <= Clean(p)
  {
  }

  /** Every local path becomes an encoded URI of an absolute path. */
  lemma LocalPathUri(t: string, cwd: string) returns (p: string)
    requires t != "" && Tight(t) && "/" <= cwd
    ensures "/" <= p && PathToFileUri(t, cwd) == FILE + Escape(p)
  {
    TrimTight(t);
    if IsWindowsAbsPath(t) {
      DriveIsKept(t);
      p := "/" + SingleSlashes(ToSlashes(t));
    } else {
      var absolute := if "/" <= t then t else cwd + "/" + t;
      CleanRooted(absolute);
      CleanTwice(absolute);
      p := Clean(absolute);
      if |p| >= 2 && p[1] == ':' {
        p := "/" + p;
      }
    }
  }

  /** Normalising a URI a second time changes nothing, whatever the input was. */
  lemma NormalizeUriTwice(uri: string, cwd: string)
    requires "/" <= cwd
    ensures NormalizeUri(NormalizeUri(uri, cwd), cwd) == NormalizeUri(uri, cwd)
    ensures Tight(NormalizeUri(uri, cwd))
  {
    var t := TrimSpace(uri);
    TrimIsTight(uri);
    TrimTight(t);
    if t != "" && !("file:" <= t) && !Contains(t, "://") {
      var p := LocalPathUri(t, cwd);
      EscapedUri(p);
      TrimTight(FILE + Escape(p));
    }
  }

  // ----- more about percent-encoding

  lemma {:induction false} UnescapeBehind(a: string, b: string)
    requires '%' !in a
    ensures Unescape(a + b) == match Unescape(b) case None => None case Some(r) => Some(a + r)
  {
    if a == "" {
      assert a + b == b;
      assert Unescape(b).Some? ==> a + Unescape(b).value == Unescape(b).value;
    } else {
      UnescapeBehind(a[1..], b);
      assert (a + b)[1..] == a[1..] + b;
      assert Unescape(b).Some? ==> [a[0]] + (a[1..] + Unescape(b).value) == a + Unescape(b).value;
    }
  }

  lemma {:induction false} UnescapeBytes(s: string)
    requires IsBytes(s)
    ensures Unescape(s).Some? ==> IsBytes(Unescape(s).value)
  {
    if s != "" {
      if s[0] != '%' {
        UnescapeBytes(s[1..]);
      } else if |s| >= 3 {
        UnescapeBytes(s[3..]);
      }
    }
  }

  lemma EscapeInjective(p: string, q: string)
    requires IsBytes(p) && IsBytes(q) && Escape(p) == Escape(q)
    ensures p == q
  {
    UnescapeEscape(p);
    UnescapeEscape(q);
  }

  lemma {:induction false} EscapeGrows(p: string)
    ensures |Escape(p)| >= |p|
    ensures '%' in p ==> |Escape(p)| > |p|
  {
    if p != "" {
      EscapeGrows(p[1..]);
    }
  }

  predicate AllPathChars(p: string) {
    forall i :: 0 <= i < |p| ==> IsPathChar(p[i])
  }

  lemma {:induction false} EscapePathChars(p: string)
    requires AllPathChars(p)
    ensures Escape(p) == p && '%' !in p
  {
    if p != "" {
      EscapePathChars(p[1..]);
      assert [p[0]] + p[1..] == p;
    }
  }

  lemma CleanBytes(p: string)
    requires IsBytes(p)
    ensures IsBytes(Clean(p))
  {
    forall i | 0 <= i < |Clean(p)|
      ensures Clean(p)[i] as int < 256
    {
      var c := Clean(p)[i];
      if c as int >= 256 {
        assert c in Clean(p);
        CleanCharacters(p, c);
      }
    }
  }

  function EscapeAll(parts: seq<string>): (r: seq<string>)
    ensures |r| == |parts|
  {
    if parts == [] then [] else [Escape(parts[0])] + EscapeAll(parts[1..])
  }

  lemma {:induction false} EscapeParts(parts: seq<string>)
    ensures Escape(Join(parts, SLASH)) == Join(EscapeAll(parts), SLASH)
  {
    if |parts| == 1 {
      assert EscapeAll(parts) == [Escape(parts[0])];
    } else if |parts| > 1 {
      EscapeParts(parts[1..]);
      var rest := Join(parts[1..], SLASH);
      EscapeJoin(parts[0] + [SLASH], rest);
      EscapeJoin(parts[0], [SLASH]);
      assert Escape([SLASH]) == [SLASH];
      assert EscapeAll(parts)[1..] == EscapeAll(parts[1..]);
    }
  }

  lemma EscapePlain(part: string)
    requires Plain(part) && IsBytes(part)
    ensures Plain(Escape(part))
  {
    EscapeHasNoSlash(part);
    EscapeIsSafe(part);
    if Escape(part) == Escape(".") {
      EscapeInjective(part, ".");
    } else if Escape(part) == Escape("..") {
      EscapeInjective(part, "..");
    }
    assert ".."[1..] == ".";
  }

  lemma {:induction false} EscapeHasNoSlash(p: string)
    requires SLASH !in p
    ensures SLASH !in Escape(p)
  {
    if p != "" {
      EscapeHasNoSlash(p[1..]);
    }
  }

  lemma {:induction false} EscapeAllPlain(parts: seq<string>)
    requires AllPlain(parts) && forall p :: p in parts ==> IsBytes(p)
    ensures AllPlain(EscapeAll(parts))
  {
    if parts != [] {
      assert forall p :: p in parts[1..] ==> p in parts;
      EscapePlain(parts[0]);
      EscapeAllPlain(parts[1..]);
    }
  }

  lemma {:induction false} SplitBytes(s: string)
    requires IsBytes(s)
    ensures forall p :: p in Split(s, SLASH) ==> IsBytes(p)
  {
    if s != "" {
      SplitBytes(s[1..]);
      var rest := Split(s[1..], SLASH);
      assert rest[0] in rest && forall p :: p in rest[1..] ==> p in rest;
      assert IsBytes([s[0]] + rest[0]);
    }
  }

  /** Encoding keeps a path clean. */
  lemma EscapedIsClean(p: string)
    requires CleanAbsolute(p) && "/" <= p && IsBytes(p)
    ensures Clean(Escape(p)) == Escape(p)
  {
    var parts := CleanParts(p);
    SplitJoin(parts, SLASH);
    SplitBytes(p[1..]);
    assert p[1..] == Join(parts, SLASH);
    EscapeAllPlain(parts);
    PlainIsClean(EscapeAll(parts), true);
    EscapeParts(parts);
    assert Escape(p) == "/" + Escape(p[1..]);
  }

  // ----- URIs of local paths

  /** No colon where StripDrive and PathToFileUri look for a drive letter. */
  predicate NoDrive(p: string) {
    (|p| >= 2 ==> p[1] != ':') && (|p| >= 3 ==> p[2] != ':')
  }

  /** A cleaned rooted path that the conversions treat as text. */
  predicate Canonical(p: string) {
    "/" <= p && Clean(p) == p && '\\' !in p && IsBytes(p) && Tight(p) && NoDrive(p)
  }

  lemma {:induction false} ContainsAt(before: string, sub: string, after: string)
    ensures Contains(before + sub + after, sub)
  {
    var s := before + sub + after;
    if before == "" {
      assert sub <= s;
    } else {
      assert s[1..] == before[1..] + sub + after;
      ContainsAt(before[1..], sub, after);
    }
  }

  lemma {:induction false} ContainsWithoutLast(s: string, sub: string)
    requires s != "" && sub != "" && s[|s| - 1] != sub[|sub| - 1] && Contains(s, sub)
    ensures Contains(s[..|s| - 1], sub)
  {
    if sub <= s {
      assert |sub| < |s|;
      assert sub <= s[..|s| - 1];
    } else {
      assert s[1..] != "";
      ContainsWithoutLast(s[1..], sub);
      assert s[..|s| - 1][1..] == s[1..][..|s[1..]| - 1];
    }
  }

  lemma {:induction false} TrimRightContains(s: string, sub: string)
    requires sub != "" && !IsSpace(sub[|sub| - 1]) && Contains(s, sub)
    ensures Contains(TrimRight(s), sub)
  {
    if s != "" && IsSpace(s[|s| - 1]) {
      ContainsWithoutLast(s, sub);
      TrimRightContains(s[..|s| - 1], sub);
    }
  }

  lemma {:induction false} TrimLeftContains(s: string, sub: string)
    requires sub != "" && !IsSpace(sub[0]) && Contains(s, sub)
    ensures Contains(TrimLeft(s), sub)
  {
    if s != "" && IsSpace(s[0]) {
      TrimLeftContains(s[1..], sub);
    }
  }

  lemma NotRelativeWithScheme(p: string)
    ensures Contains(FILE + p, "://")
  {
    ContainsAt("file", "://", p);
    assert "file" + "://" + p == FILE + p;
  }

  lemma {:induction false} SingleSlashesKept(s: string)
    requires NoDoubleSlash(s)
    ensures SingleSlashes(s) == s
  {
    if s != "" {
      SingleSlashesKept(s[1..]);
      assert "//"[0] == SLASH && "//"[1] == SLASH;
      assert [s[0]] + s[1..] == s;
    }
  }

  lemma DriveIsNoScheme(path: string)
    requires IsWindowsAbsPath(path)
    ensures !("file:" <= path)
  {
    assert "file:"[1] != ':';
  }

  lemma DriveHasNoScheme(path: string)
    requires IsWindowsAbsPath(path) && NoDoubleSlash(ToSlashes(path))
    ensures !Contains(path, "://")
  {
    ToSlashesSame(path);
    NoScheme(path) by {
      forall i | 0 <= i < |path| - 1
        ensures !(path[i] == SLASH && path[i + 1] == SLASH)
      {
        assert !(ToSlashes(path)[i] == SLASH && ToSlashes(path)[i + 1] == SLASH);
      }
    }
  }

  /** A path with a drive letter, in either kind of separators. */
  lemma DrivePathUri(path: string, cwd: string)
    requires IsWindowsAbsPath(path) && Clean(ToSlashes(path)) == ToSlashes(path) && Tight(path)
    ensures NormalizeUri(path, cwd) == FILE + Escape("/" + ToSlashes(path))
  {
    CleanTwice(ToSlashes(path));
    DriveHasNoScheme(path);
    TrimTight(path);
    DriveIsNoScheme(path);
    SingleSlashesKept(ToSlashes(path));
    DriveIsKept(path);
  }

  /** A rooted text becomes the URI of its cleaned form, unless it looks like some other URI. */
  lemma RootedTextUri(s: string, cwd: string)
    requires "/" <= s
    ensures var t := TrimSpace(s);
      var c := Clean(t);
      NormalizeUri(s, cwd) == if Contains(t, "://") then t
                              else FILE + Escape(if |c| >= 2 && c[1] == ':' then "/" + c else c)
  {
    var t := TrimSpace(s);
    TrimRightStart(s, 0);
    TrimIsTight(s);
    TrimTight(t);
    CleanTwice(t);
    assert !("file:" <= t) by { assert "file:"[0] != SLASH; }
  }

  /** The URI made of a rooted text encodes no path longer than that text, or than its cleaned form. */
  lemma {:induction false} UriOfShorterPath(t: string, p: string, cwd: string)
    requires "/" <= t && IsBytes(t) && IsBytes(p)
    requires |t| + 1 < |p|
    ensures NormalizeUri(t, cwd) != FILE + Escape(p)
  {
    var s := TrimSpace(t);
    RootedTextUri(t, cwd);
    TrimRightStart(t, 0);
    if !Contains(s, "://") {
      CleanLength(s);
      CleanBytes(s);
      var q := if |Clean(s)| >= 2 && Clean(s)[1] == ':' then "/" + Clean(s) else Clean(s);
      if Escape(q) == Escape(p) {
        EscapeInjective(q, p);
      }
      assert (FILE + Escape(q))[7..] == Escape(q) && (FILE + Escape(p))[7..] == Escape(p);
    } else {
      assert NormalizeUri(t, cwd)[0] == SLASH;
    }
  }

  lemma SafeText(e: string)
    requires UriSafe(e) && "/" <= e
    ensures Tight(e) && '\\' !in e
  {
    forall i | 0 <= i < |e|
      ensures e[i] != '\\' && !IsSpace(e[i])
    {
      assert IsPathChar(e[i]) || e[i] == '%';
    }
  }

  lemma Fallback(e: string, p: string, other: string -> Option<string>)
    requires "/" <= e && IsLocalFileUri(FILE + e) && Tight(FILE + e) && Unescape(e) == Some(p) && Unescape(p) == None
    ensures UriToFilePath(FILE + e, other) == e
  {
    TrimTight(FILE + e);
    assert (FILE + e)[7..] == e;
    assert !("file:" <= e) by { assert e[0] != "file:"[0]; }
  }

  lemma TakenLiterally(p: string, other: string -> Option<string>)
    requires "/" <= p && IsBytes(p) && Unescape(p) == None
    ensures Tight(FILE + Escape(p)) && Tight(Escape(p)) && "/" <= Escape(p) && '\\' !in Escape(p)
    ensures UriToFilePath(FILE + Escape(p), other) == Escape(p)
  {
    EscapedUri(p);
    UnescapeEscape(p);
    EscapeIsSafe(p);
    SafeText(Escape(p));
    Fallback(Escape(p), p, other);
  }

  lemma SecondCharacter(p: string)
    requires "/" <= p && (|p| >= 2 ==> p[1] != ':')
    ensures |Escape(p)| >= 2 ==> Escape(p)[1] != ':'
  {
    if |p| >= 2 {
      assert Escape(p) == "/" + Escape(p[1..]);
      assert Escape(p[1..])[0] == EscapeChar(p[1])[0];
    } else {
      assert Escape(p) == "/" + Escape(p[1..]);
    }
  }

  lemma DecodedUri(p: string, q: string, other: string -> Option<string>)
    requires "/" <= p && IsBytes(p) && Unescape(p) == Some(q) && StripDrive(q) == q
    ensures Tight(FILE + Escape(p)) && UriToFilePath(FILE + Escape(p), other) == q
  {
    EscapedUri(p);
    TrimTight(FILE + Escape(p));
    UnescapeEscape(p);
  }

  /** A relative path made of plain elements becomes the URI of that path below the working directory. */
  lemma RelativePathUri(parts: seq<string>, cwd: string)
    requires AllPlain(parts) && parts != [] && CleanAbsolute(cwd) && "/" <= cwd && cwd[1] != ':'
    requires var t := Join(parts, SLASH); Tight(t) && !IsWindowsAbsPath(t) && !("file:" <= t)
    ensures NormalizeUri(Join(parts, SLASH), cwd) == FILE + Escape(cwd + "/" + Join(parts, SLASH))
  {
    var t := Join(parts, SLASH);
    JoinStart(parts);
    TrimTight(t);
    PlainIsClean(parts, false);
    assert "" + t == t;
    CleanTwice(t);
    NoScheme(t);
    RootWithTail(cwd, parts);
  }

  /** A space between path characters is encoded, and they are not. */
  lemma EscapeSpace(a: string, b: string)
    requires AllPathChars(a) && AllPathChars(b)
    ensures Escape(a + " " + b) == a + "%20" + b
  {
    EscapeJoin(a + " ", b);
    EscapeJoin(a, " ");
    EscapePathChars(a);
    EscapePathChars(b);
    assert Escape(" ") == EscapeChar(' ') + Escape("") == "%20";
  }

  // ----- the remaining shapes of input

  lemma {:induction false} ContainsExactly(s: string, sub: string)
    ensures Contains(s, sub) <==> exists a, b :: s == a + sub + b
  {
    if Contains(s, sub) {
      var a, b := Around(s, sub);
    }
    forall a, b | s == a + sub + b
      ensures Contains(s, sub)
    {
      ContainsAt(a, sub, b);
    }
  }

  lemma {:induction false} Around(s: string, sub: string) returns (a: string, b: string)
    requires Contains(s, sub)
    ensures s == a + sub + b
  {
    if sub <= s {
      a, b := "", s[|sub|..];
    } else {
      a, b := Around(s[1..], sub);
      a := [s[0]] + a;
      assert s == [s[0]] + s[1..];
    }
  }

  /** Whatever is a URI already is only trimmed. */
  lemma UrisAreKept(uri: string, cwd: string)
    requires "file:" <= TrimSpace(uri) || exists a, b :: TrimSpace(uri) == a + "://" + b
    ensures NormalizeUri(uri, cwd) == TrimSpace(uri)
  {
    ContainsExactly(TrimSpace(uri), "://");
  }

  /** What is not a file URI names itself. */
  lemma PathNamesItself(path: string, other: string -> Option<string>)
    requires Tight(path) && !("file:" <= path)
    ensures UriToFilePath(path, other) == path
  {
    TrimTight(path);
  }

  /** In a path with a drive letter two slashes become one. */
  lemma {:induction false} SlashesJoined(a: string, b: string)
    requires NoDoubleSlash(a) && (a != "" ==> a[|a| - 1] != SLASH)
    ensures SingleSlashes(a + "//" + b) == a + "/" + SingleSlashes(b)
  {
    var s := a + "//" + b;
    if a == "" {
      assert s[2..] == b;
    } else {
      assert s[1..] == a[1..] + "//" + b;
      assert s[0] == SLASH ==> |a| > 1 && s[1] == a[1];
      SlashesJoined(a[1..], b);
      assert a == [a[0]] + a[1..];
    }
  }
}
