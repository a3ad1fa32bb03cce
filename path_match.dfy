/** `match_path` (damage_control.py:57-76): does a file path fall under a
    configured path pattern? A glob pattern is matched, case-insensitively,
    against the file's name and then against its whole path; any other
    pattern is a case-sensitive string prefix of the normalised path. */
module PathMatch {
  import opened Strings
  import opened Paths
  import opened Glob

  /** `match_path(file_path, pattern)` with `$HOME` given as `home`. */
  function MatchPath(filePath: string, pattern: string, home: string): bool
  {
    if IsGlobPattern(pattern) then GlobBranch(filePath, pattern, home) else PrefixBranch(filePath, pattern, home)
  }

  /** The glob branch: the lower-cased name of the normalised, expanded
      file path against the lower-cased expanded pattern, then against the
      lower-cased pattern as written, then the whole lower-cased path
      against the lower-cased expanded pattern. */
  predicate GlobBranch(filePath: string, pattern: string, home: string)
  {
    var expandedPattern := Expanded(pattern, home);
    var expandedNormalized := Expanded(NormPath(filePath), home);
    var basenameLower := Lower(Basename(expandedNormalized));
    GlobMatch(basenameLower, Lower(expandedPattern))
    || GlobMatch(basenameLower, Lower(pattern))
    || GlobMatch(Lower(expandedNormalized), Lower(expandedPattern))
  }

  /** The prefix branch: the normalised, expanded file path starts with the
      expanded pattern, or equals it stripped of trailing `/`. */
  predicate PrefixBranch(filePath: string, pattern: string, home: string)
  {
    var expandedPattern := Expanded(pattern, home);
    var expandedNormalized := Expanded(NormPath(filePath), home);
    StartsWith(expandedNormalized, expandedPattern) || expandedNormalized == RStripSlash(expandedPattern)
  }

  /** A pattern without glob characters matches exactly the paths whose
      normalised, expanded form starts with the expanded pattern. The
      fallback comparison with the pattern stripped of trailing `/` never
      adds a match: an expanded path ends in `/` only when it is a bare
      root, and stripping a bare root leaves the empty string, which no
      expanded path equals. The prefix is a string prefix, not a
      component prefix, and it is case-sensitive. */
  lemma LiteralMatchIsPrefix(filePath: string, pattern: string, home: string)
    requires !IsGlobPattern(pattern)
    ensures MatchPath(filePath, pattern, home) <==>
              StartsWith(Expanded(NormPath(filePath), home), Expanded(pattern, home))
  {
    var ep := Expanded(pattern, home);
    var en := Expanded(NormPath(filePath), home);
    LiteralBranch(filePath, pattern, home, en, ep);
    ExpandedShape(pattern, home);
    ExpandedShape(NormPath(filePath), home);
    PrefixOrStripped(en, ep);
  }

  /** Without glob characters, `match_path` is the prefix-or-stripped test. */
  lemma LiteralBranch(filePath: string, pattern: string, home: string, en: string, ep: string)
    requires !IsGlobPattern(pattern)
    requires ep == Expanded(pattern, home) && en == Expanded(NormPath(filePath), home)
    ensures MatchPath(filePath, pattern, home) <==> StartsWith(en, ep) || en == RStripSlash(ep)
  {
  }

  /** Between two expanded paths, equality with the pattern stripped of
      trailing `/` holds only where the prefix test holds already. */
  lemma PrefixOrStripped(en: string, ep: string)
    requires en != [] && ep != []
    requires ep[|ep| - 1] == '/' ==> ep == "/" || ep == "//"
    ensures StartsWith(en, ep) || en == RStripSlash(ep) <==> StartsWith(en, ep)
  {
    if ep[|ep| - 1] == '/' {
      StripBareRoot(ep);
    } else {
      assert RStripSlash(ep) == ep;
    }
  }


  /** Stripping trailing `/` from a bare root leaves nothing. */
  lemma StripBareRoot(ep: string)
    requires ep == "/" || ep == "//"
    ensures RStripSlash(ep) == []
  {
    assert ep[..|ep| - 1][..0] == [];
    if ep == "//" {
      assert ep[..1] == "/";
    }
  }



  /** A glob pattern applies to a file's own name in any directory: when
      the lower-cased name matches the lower-cased pattern, the file
      matches. */
  lemma GlobMatchesNameInAnyDirectory(dir: string, name: string, pattern: string, home: string)
    requires IsGlobPattern(pattern)
    requires ValidPart(name) && name != ".." && name != "~"
    requires GlobMatch(Lower(name), Lower(pattern))
    ensures MatchPath(dir + "/" + name, pattern, home)
  {
    BasenameOfNormalized(dir, name, home);
  }

  /** `*.pem` style patterns: a file in any directory whose name ends with
      the extension in any letter case matches (`/tmp/Server.PEM` under
      `*.pem`). */
  lemma ExtensionPatternIgnoresCase(dir: string, name: string, extension: string, home: string)
    requires !IsGlobPattern(extension)
    requires ValidPart(name) && name != ".." && name != "~"
    requires EndsWith(Lower(name), Lower(extension))
    ensures MatchPath(dir + "/" + name, "*" + extension, home)
  {
    LowerAppend("*", extension);
    assert Lower("*") == "*";
    assert !IsGlobPattern(Lower(extension)) by {
      GlobPatternIffGlobChar(extension);
      GlobPatternIffGlobChar(Lower(extension));
    }
    StarSuffixMatch(Lower(name), Lower(extension));
    assert IsGlobPattern("*" + extension) by { assert ("*" + extension)[0] == '*'; }
    GlobMatchesNameInAnyDirectory(dir, name, "*" + extension, home);
  }

  /** A relative literal pattern (no leading `/`, no `~`) never matches an
      absolute file path: `dist/` does not protect `/project/dist/app.js`. */
  lemma RelativePatternMissesAbsolutePath(filePath: string, pattern: string, home: string)
    requires !IsGlobPattern(pattern)
    requires !StartsWith(pattern, "/") && '~' !in pattern
    requires StartsWith(filePath, "/")
    ensures !MatchPath(filePath, pattern, home)
  {
    LiteralMatchIsPrefix(filePath, pattern, home);
    AbsoluteStaysAbsolute(filePath, home);
    RelativeStaysRelative(pattern, home);
    ExpandedShape(pattern, home);
  }

  /** A slash-free word followed by one `/` splits into the word and `""`. */
  lemma {:induction false} SplitWordSlash(w: string)
    requires '/' !in w
    ensures Split(w + "/", '/') == [w, ""]
  {
    if w == [] {
      assert w + "/" == "/" && "/"[1..] == [];
    } else {
      assert (w + "/")[1..] == w[1..] + "/";
      assert '/' !in w[1..] by {
        forall c | c in w[1..] ensures c in w { var m :| 0 <= m < |w[1..]| && w[1..][m] == c; assert w[m + 1] == c; }
      }
      SplitWordSlash(w[1..]);
      assert [w[0]] + w[1..] == w;
    }
  }

  /** Of the pieces of `/w/`, only `w` is kept. */
  lemma CleanRootWord(w: string)
    requires ValidPart(w)
    ensures CleanParts(["", w, ""]) == [w]
  {
    var pieces: seq<string> := ["", w, ""];
    assert pieces[1..] == [w, ""];
    assert pieces[1..][1..] == [""];
    assert [""][1..] == [];
    assert CleanParts([""]) == [];
    assert CleanParts([w, ""]) == [w] + CleanParts([""]);
    assert CleanParts(pieces) == [] + CleanParts([w, ""]);
  }

  /** A root, one directory name and a trailing `/` expand to the root and
      that name: `/etc/` becomes `/etc`. */
  lemma DirPatternExpanded(w: string, home: string)
    requires ValidPart(w)
    ensures Expanded("/" + w + "/", home) == "/" + w
  {
    var s := "/" + w + "/";
    SplitWordSlash(w);
    assert s[0] == '/' && s[1..] == w + "/";
    var pieces := Split(s, '/');
    assert pieces == ["", w, ""];
    CleanRootWord(w);
    assert s[1] == w[0] != '/';
    assert RootOf(s) == "/";
  }

  /** A trailing `/` on a pattern is dropped before the prefix test:
      `/etc/` protects exactly the paths whose normalised form starts with
      `/etc` (so `/etc` itself, and also `/etcd`, since the test is on
      strings, not on path components). */
  lemma TrailingSlashPattern(filePath: string, w: string, home: string)
    requires ValidPart(w) && !IsGlobPattern(w)
    ensures MatchPath(filePath, "/" + w + "/", home) <==> StartsWith(Expanded(NormPath(filePath), home), "/" + w)
  {
    assert !IsGlobPattern("/" + w + "/");
    LiteralMatchIsPrefix(filePath, "/" + w + "/", home);
    DirPatternExpanded(w, home);
  }

  /** A literal `~/w` entry (as `~/.ssh`) covers `w` under the home
      directory and every file directly inside it, for a home directory in
      normal form (`/home/u`). */
  lemma TildePatternCoversHome(homeParts: seq<string>, home: string, w: string, name: string)
    requires homeParts != [] && NormalParts(homeParts)
    requires home == "/" + Join(homeParts, "/")
    requires ValidPart(w) && w != ".." && !IsGlobPattern(w)
    requires ValidPart(name) && name != ".."
    ensures MatchPath(home + "/" + w, "~/" + w, home)
    ensures MatchPath(home + "/" + w + "/" + name, "~/" + w, home)
  {
    var pattern := "~/" + w;
    assert !IsGlobPattern(pattern) by { GlobPatternAppend("~/", w); }
    assert Expanded(pattern, home) == home + "/" + w by {
      assert forall k :: 0 <= k < |homeParts| ==> ValidPart(homeParts[k]);
      ExpandTilde(homeParts, home, w);
    }
    var dir := home + "/" + w;
    assert MatchPath(dir, pattern, home) by {
      NormalUnderPattern(homeParts, w, pattern, home);
      AbsoluteSnoc(homeParts, w);
    }
    assert MatchPath(dir + "/" + name, pattern, home) by {
      NormalSnoc(homeParts, w);
      AbsoluteSnoc(homeParts, w);
      NormalUnderPattern(homeParts + [w], name, pattern, home);
      AbsoluteSnoc(homeParts + [w], name);
      assert (dir + "/" + name)[..|dir|] == dir;
    }
  }

  /** A literal pattern against a path in normal form with one more part:
      the plain prefix test on the path's string form. */
  lemma NormalUnderPattern(parts: seq<string>, last: string, pattern: string, home: string)
    requires parts != [] && NormalParts(parts) && ValidPart(last) && last != ".."
    requires !IsGlobPattern(pattern)
    ensures MatchPath("/" + Join(parts + [last], "/"), pattern, home)
            <==> StartsWith("/" + Join(parts + [last], "/"), Expanded(pattern, home))
  {
    NormalSnoc(parts, last);
    NormalAbsoluteFixed(parts + [last], home);
    LiteralMatchIsPrefix("/" + Join(parts + [last], "/"), pattern, home);
  }

  /** Lower-casing adds no glob characters. */
  lemma LowerNotGlob(s: string)
    requires !IsGlobPattern(s)
    ensures !IsGlobPattern(Lower(s))
  {
    GlobPatternIffGlobChar(s);
    GlobPatternIffGlobChar(Lower(s));
  }

  /** The pieces of the pattern made of `**`, `/d/` and `*`. */
  lemma DoubleStarDirSplit(d: string)
    requires ValidPart(d)
    ensures Split("**/" + d + "/*", '/') == ["**", d, "*"]
  {
    assert "**/" + d + "/*" == ("**" + ['/'] + d) + ['/'] + "*";
    SplitNoSeparator("**", '/');
    SplitAppend("**", d, '/');
    SplitAppend("**" + ['/'] + d, "*", '/');
  }

  /** `Path` parses the pattern made of `**`, `/d/` and `*` into its
      three pieces, with no root. */
  lemma ParseDoubleStarDir(d: string)
    requires ValidPart(d)
    ensures ParsePath("**/" + d + "/*") == PurePath("", ["**", d, "*"])
  {
    var pattern := "**/" + d + "/*";
    DoubleStarDirSplit(d);
    CleanPartsValid(["**", d, "*"]);
    assert !StartsWith(pattern, "/") by { assert pattern[0] == '*'; }
  }

  /** Joining the three pieces gives the pattern back. */
  lemma JoinDoubleStarDir(d: string)
    ensures Join(["**", d, "*"], "/") == "**/" + d + "/*"
  {
    var parts := ["**", d, "*"];
    assert parts[1..] == [d, "*"] && [d, "*"][1..] == ["*"];
    assert Join(["*"], "/") == "*";
    assert Join([d, "*"], "/") == d + "/" + "*";
    assert Join(parts, "/") == "**" + "/" + (d + "/" + "*");
  }

  /** The pattern made of `**`, `/d/` and `*` is its own expansion. */
  lemma DoubleStarDirExpanded(d: string, home: string)
    requires ValidPart(d)
    ensures Expanded("**/" + d + "/*", home) == "**/" + d + "/*"
  {
    var parts := ["**", d, "*"];
    ParseDoubleStarDir(d);
    assert parts[0] != "~" by { assert |parts[0]| == 2; }
    assert ExpandUser(PurePath("", parts), home) == PurePath("", parts);
    JoinDoubleStarDir(d);
  }

  /** The string form of an absolute path ending in the parts `d` and
      `name`, split around them. */
  lemma AbsoluteLastTwo(dirParts: seq<string>, d: string, name: string)
    ensures "/" + Join(dirParts + [d, name], "/")
            == (if dirParts == [] then "" else "/" + Join(dirParts, "/")) + "/" + d + "/" + name
  {
    assert dirParts + [d, name] == (dirParts + [d]) + [name];
    AbsoluteSnoc(dirParts + [d], name);
    if dirParts == [] {
      assert dirParts + [d] == [d];
    } else {
      AbsoluteSnoc(dirParts, d);
    }
  }

  /** Lower-casing a path that ends in `/d/name`, piece by piece. */
  lemma LowerLastTwo(x: string, d: string, name: string)
    ensures Lower(x + "/" + d + "/" + name) == Lower(x) + "/" + Lower(d) + "/" + Lower(name)
  {
    LowerAppend(x + "/" + d + "/", name);
    LowerAppend(x + "/" + d, "/");
    LowerAppend(x + "/", d);
    LowerAppend(x, "/");
    assert Lower("/") == "/";
  }

  /** Lower-casing the pattern made of `**`, `/d/` and `*` touches `d` only. */
  lemma LowerDoubleStarDir(d: string)
    ensures Lower("**/" + d + "/*") == "**/" + Lower(d) + "/*"
  {
    LowerAppend("**/" + d, "/*");
    LowerAppend("**/", d);
    assert Lower("**/") == "**/" && Lower("/*") == "/*";
  }

  // Whole-path fallback: with a pattern "**/d/*" (such as "**/secrets/*"),
  // a file directly inside a directory `d` matches at any depth below the
  // root (/project/secrets/db.yaml), through the comparison of the whole
  // lower-cased path.
  lemma DoubleStarDirPattern(dirParts: seq<string>, d: string, name: string, home: string)
    requires NormalParts(dirParts)
    requires ValidPart(d) && d != ".." && !IsGlobPattern(d)
    requires ValidPart(name) && name != ".."
    ensures MatchPath("/" + Join(dirParts + [d, name], "/"), "**/" + d + "/*", home)
  {
    var pattern := "**/" + d + "/*";
    var parts := dirParts + [d, name];
    var file := "/" + Join(parts, "/");
    NormalSnoc(dirParts, d);
    NormalSnoc(dirParts + [d], name);
    assert parts == (dirParts + [d]) + [name];
    NormalAbsoluteFixed(parts, home);
    var x := if dirParts == [] then "" else "/" + Join(dirParts, "/");
    AbsoluteLastTwo(dirParts, d, name);
    DoubleStarDirExpanded(d, home);
    LowerLastTwo(x, d, name);
    LowerDoubleStarDir(d);
    LowerNotGlob(d);
    DoubleStarDir(Lower(x), Lower(d), Lower(name));
    assert GlobMatch(Lower(file), Lower(pattern));
    assert IsGlobPattern(pattern) by { assert pattern[0] == '*'; }
  }
}
