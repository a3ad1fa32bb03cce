/** The path normalisation the matcher depends on: the string form of a
    POSIX `pathlib.Path`, `Path.expanduser`, `Path.name` and
    `os.path.normpath`. The home directory is a parameter (the value of
    `$HOME`), never read from the environment. */
module Paths {
  import opened Strings

  /** A parsed POSIX path: its root (`""`, `"/"`, or exactly `"//"`, which
      POSIX lets an implementation keep) and its parts. */
  datatype PurePath = PurePath(root: string, parts: seq<string>)

  /** A part of a parsed path: never empty, never `"."`, and free of `/`. */
  predicate ValidPart(part: string)
  {
    part != [] && part != "." && '/' !in part
  }

  predicate WellFormed(p: PurePath)
  {
    && (p.root == "" || p.root == "/" || p.root == "//")
    && forall k :: 0 <= k < |p.parts| ==> ValidPart(p.parts[k])
  }

  /** The root that `Path(s)` keeps: two leading slashes stay two, one or
      three and more become one. */
  function RootOf(s: string): (r: string)
    ensures r == "" <==> !StartsWith(s, "/")
    ensures r == "//" <==> StartsWith(s, "//") && !StartsWith(s, "///")
  {
    if StartsWith(s, "//") && !StartsWith(s, "///") then "//"
    else if StartsWith(s, "/") then "/"
    else ""
  }

  /** The pieces of a split path that `Path` keeps: all but `""` and `"."`. */
  function CleanParts(pieces: seq<string>): (r: seq<string>)
    requires forall k :: 0 <= k < |pieces| ==> '/' !in pieces[k]
    ensures forall k :: 0 <= k < |r| ==> ValidPart(r[k])
    ensures forall k :: 0 <= k < |r| ==> r[k] in pieces
    ensures forall k :: 0 <= k < |pieces| && ValidPart(pieces[k]) ==> pieces[k] in r
  {
    if pieces == [] then []
    else (if pieces[0] == "" || pieces[0] == "." then [] else [pieces[0]]) + CleanParts(pieces[1..])
  }

  /** `Path(s)`: the root and the non-empty, non-`.` components of `s`. */
  function ParsePath(s: string): (p: PurePath)
    ensures WellFormed(p)
  {
    PurePath(RootOf(s), CleanParts(Split(s, '/')))
  }

  /** `str(p)`: root and parts joined by `/`, or `"."` for the empty relative path. */
  function PathStr(p: PurePath): string
  {
    if p.root == "" && p.parts == [] then "." else p.root + Join(p.parts, "/")
  }

  /** `os.path.expanduser("~")` for a given `$HOME`: trailing slashes dropped,
      and the root when nothing is left. */
  function HomeDir(home: string): (r: string)
    ensures r != []
  {
    var h := RStripSlash(home);
    if h == [] then "/" else h
  }

  /** `Path.expanduser()`: a relative path whose first part is exactly `~`
      has that part replaced by the home directory's root and parts. */
  function ExpandUser(p: PurePath, home: string): (r: PurePath)
    requires WellFormed(p)
    ensures WellFormed(r)
    ensures !(p.root == "" && |p.parts| > 0 && p.parts[0] == "~") ==> r == p
    ensures p.root == "" && |p.parts| > 0 && p.parts[0] == "~" ==>
              r.root == ParsePath(HomeDir(home)).root && r.parts == ParsePath(HomeDir(home)).parts + p.parts[1..]
  {
    if p.root == "" && |p.parts| > 0 && p.parts[0] == "~" then
      var h := ParsePath(HomeDir(home));
      PurePath(h.root, h.parts + p.parts[1..])
    else p
  }

  /** `str(Path(s).expanduser())`. */
  function Expanded(s: string, home: string): string
  {
    PathStr(ExpandUser(ParsePath(s), home))
  }

  /** `Path(s).name`: the last part, or `""` when there is none. */
  function Basename(s: string): (r: string)
    ensures r == [] || '/' !in r
  {
    var p := ParsePath(s);
    if p.parts == [] then [] else p.parts[|p.parts| - 1]
  }

  /** The string form of a well-formed path is never empty, and ends in `/`
      only when it is a bare root. */
  lemma PathStrShape(p: PurePath)
    requires WellFormed(p)
    ensures PathStr(p) != []
    ensures PathStr(p)[|PathStr(p)| - 1] == '/' ==> PathStr(p) == "/" || PathStr(p) == "//"
  {
    if p.parts != [] {
      JoinEndsWithLast(p.parts, "/");
      var j := Join(p.parts, "/");
      var last := p.parts[|p.parts| - 1];
      assert ValidPart(last);
      assert j[|j| - 1] == last[|last| - 1];
      assert last[|last| - 1] in last;
      assert (p.root + j)[|p.root + j| - 1] == j[|j| - 1];
    }
  }

  /** `str(Path(s).expanduser())` is never empty, and ends in `/` only when
      it is a bare root. */
  lemma ExpandedShape(s: string, home: string)
    ensures Expanded(s, home) != []
    ensures Expanded(s, home)[|Expanded(s, home)| - 1] == '/' ==>
              Expanded(s, home) == "/" || Expanded(s, home) == "//"
  {
    PathStrShape(ExpandUser(ParsePath(s), home));
  }

  /** Cleaning one more piece keeps the earlier parts and adds that piece
      unless it is `""` or `"."`. */
  lemma {:induction false} CleanPartsAppend(pieces: seq<string>, piece: string)
    requires forall k :: 0 <= k < |pieces| ==> '/' !in pieces[k]
    requires '/' !in piece
    ensures CleanParts(pieces + [piece]) == CleanParts(pieces) + (if piece == "" || piece == "." then [] else [piece])
  {
    var all := pieces + [piece];
    if pieces == [] {
      assert all[1..] == [];
    } else {
      assert all[0] == pieces[0] && all[1..] == pieces[1..] + [piece];
      CleanPartsAppend(pieces[1..], piece);
    }
  }

  /** A string ending in a valid part after a `/` (or consisting of that part
      alone) parses to a path whose last part is that part. */
  lemma LastPart(dir: string, name: string)
    requires dir == [] || dir[|dir| - 1] == '/'
    requires ValidPart(name)
    ensures ParsePath(dir + name).parts != []
    ensures ParsePath(dir + name).parts[|ParsePath(dir + name).parts| - 1] == name
  {
    if dir == [] {
      assert dir + name == name;
      SplitNoSeparator(name, '/');
      CleanPartsAppend([], name);
    } else {
      var a := dir[..|dir| - 1];
      assert dir + name == a + ['/'] + name;
      SplitAppend(a, name, '/');
      CleanPartsAppend(Split(a, '/'), name);
    }
  }

  /** A directory part (empty or ending in `/`) in front of another one is
      still a directory part in front of the same name. */
  lemma DirBeforeDir(pre: string, d0: string, name: string)
    requires pre == [] || pre[|pre| - 1] == '/'
    requires d0 == [] || d0[|d0| - 1] == '/'
    ensures exists d :: (d == [] || d[|d| - 1] == '/') && pre + (d0 + name) == d + name
  {
    var d := pre + d0;
    assert pre + (d0 + name) == d + name;
    if d0 != [] {
      assert d[|d| - 1] == d0[|d0| - 1];
    }
  }

  /** The string form of a path with parts ends in its last part, after a
      `/` or after nothing. */
  lemma PathStrLast(p: PurePath)
    requires WellFormed(p) && p.parts != []
    ensures exists dir :: (dir == [] || dir[|dir| - 1] == '/') && PathStr(p) == dir + p.parts[|p.parts| - 1]
  {
    var last := p.parts[|p.parts| - 1];
    var init := p.parts[..|p.parts| - 1];
    assert p.parts == init + [last];
    JoinLast(init, last);
    var d0 :| (d0 == [] || d0[|d0| - 1] == '/') && Join(init + [last], "/") == d0 + last;
    assert PathStr(p) == p.root + (d0 + last);
    DirBeforeDir(p.root, d0, last);
  }

  /** Expanding `~` keeps the last part of a path unless it is that `~`. */
  lemma ExpandUserLast(p: PurePath, home: string)
    requires WellFormed(p) && p.parts != [] && p.parts[|p.parts| - 1] != "~"
    ensures ExpandUser(p, home).parts != []
    ensures ExpandUser(p, home).parts[|ExpandUser(p, home).parts| - 1] == p.parts[|p.parts| - 1]
  {
    if p.root == "" && p.parts[0] == "~" {
      var h := ParsePath(HomeDir(home));
      var rest := p.parts[1..];
      assert |rest| > 0 && rest[|rest| - 1] == p.parts[|p.parts| - 1];
      assert ExpandUser(p, home).parts == h.parts + rest;
    }
  }

  /** `~`-expansion keeps the last part of a path unless that part is the
      `~` being expanded. */
  lemma ExpandedLast(s: string, home: string)
    requires ParsePath(s).parts != []
    requires ParsePath(s).parts[|ParsePath(s).parts| - 1] != "~"
    ensures Basename(Expanded(s, home)) == ParsePath(s).parts[|ParsePath(s).parts| - 1]
  {
    var p := ParsePath(s);
    var q := ExpandUser(p, home);
    var name := p.parts[|p.parts| - 1];
    ExpandUserLast(p, home);
    PathStrLast(q);
    var dir :| (dir == [] || dir[|dir| - 1] == '/') && PathStr(q) == dir + name;
    LastPart(dir, name);
  }

  // os.path.normpath

  /** How many leading slashes `os.path.normpath` keeps. */
  function InitialSlashes(s: string): (n: nat)
    ensures n <= 2
    ensures n == 0 <==> !StartsWith(s, "/")
  {
    if StartsWith(s, "//") && !StartsWith(s, "///") then 2
    else if StartsWith(s, "/") then 1
    else 0
  }

  /** One step of `os.path.normpath`'s component loop: skip `""` and `"."`,
      let `..` cancel the previous component (or vanish at an absolute root),
      and keep everything else. */
  function NormStep(acc: seq<string>, comp: string, absolute: bool): seq<string>
  {
    if comp == "" || comp == "." then acc
    else if comp != ".." || (!absolute && acc == []) || (acc != [] && acc[|acc| - 1] == "..") then acc + [comp]
    else if acc != [] then acc[..|acc| - 1]
    else acc
  }

  /** `os.path.normpath`'s component loop over all components, left to right. */
  function NormComps(comps: seq<string>, absolute: bool): seq<string>
  {
    if comps == [] then []
    else NormStep(NormComps(comps[..|comps| - 1], absolute), comps[|comps| - 1], absolute)
  }

  function Slashes(n: nat): (r: string)
    ensures |r| == n && forall i :: 0 <= i < n ==> r[i] == '/'
  {
    if n == 0 then [] else "/" + Slashes(n - 1)
  }

  /** `os.path.normpath(s)` on POSIX. */
  function NormPath(s: string): (r: string)
    ensures r != []
    ensures s == [] ==> r == "."
  {
    if s == [] then "."
    else
      var n := InitialSlashes(s);
      var p := Slashes(n) + Join(NormComps(Split(s, '/'), n > 0), "/");
      if p == [] then "." else p
  }

  /** A final valid component other than `..` survives the component loop. */
  lemma NormCompsLast(comps: seq<string>, name: string, absolute: bool)
    requires ValidPart(name) && name != ".."
    ensures NormComps(comps + [name], absolute) == NormComps(comps, absolute) + [name]
  {
    var all := comps + [name];
    assert all[..|all| - 1] == comps;
    assert all[|all| - 1] == name;
  }

  /** A path whose last component is a valid part other than `..`
      normalises to a string ending in that part, after a `/` or after nothing. */
  /** `NormPath` of a non-empty path whose rejoined components are not empty. */
  lemma NormPathNonEmpty(s: string, n: nat, joined: string)
    requires s != [] && n == InitialSlashes(s)
    requires joined == Join(NormComps(Split(s, '/'), n > 0), "/") && joined != []
    ensures NormPath(s) == Slashes(n) + joined
  {
  }

  lemma NormPathOfSplit(s: string, comps: seq<string>, name: string)
    requires s != [] && Split(s, '/') == comps + [name]
    requires ValidPart(name) && name != ".."
    ensures exists d :: (d == [] || d[|d| - 1] == '/') && NormPath(s) == d + name
  {
    var n := InitialSlashes(s);
    NormCompsLast(comps, name, n > 0);
    var acc := NormComps(comps, n > 0);
    JoinLast(acc, name);
    var d0 :| (d0 == [] || d0[|d0| - 1] == '/') && Join(acc + [name], "/") == d0 + name;
    NormPathNonEmpty(s, n, d0 + name);
    DirBeforeDir(Slashes(n), d0, name);
  }

  lemma NormPathLast(dir: string, name: string)
    requires ValidPart(name) && name != ".."
    ensures exists d :: (d == [] || d[|d| - 1] == '/') && NormPath(dir + "/" + name) == d + name
  {
    SplitAppend(dir, name, '/');
    NormPathOfSplit(dir + "/" + name, Split(dir, '/'), name);
  }

  /** The name `match_path` compares a glob with: for a file `dir/name`, the
      name itself, wherever the directory is and whatever `~` it starts with. */
  lemma BasenameOfNormalized(dir: string, name: string, home: string)
    requires ValidPart(name) && name != ".." && name != "~"
    ensures Basename(Expanded(NormPath(dir + "/" + name), home)) == name
  {
    NormPathLast(dir, name);
    var d :| (d == [] || d[|d| - 1] == '/') && NormPath(dir + "/" + name) == d + name;
    LastPart(d, name);
    ExpandedLast(d + name, home);
  }

  /** An absolute path stays absolute through normalisation and expansion. */
  lemma AbsoluteStaysAbsolute(s: string, home: string)
    requires StartsWith(s, "/")
    ensures StartsWith(Expanded(NormPath(s), home), "/")
  {
    var n := InitialSlashes(s);
    assert Slashes(n)[0] == '/';
    var norm := NormPath(s);
    assert norm[0] == '/';
    var p := ParsePath(norm);
    assert p.root != "";
  }

  /** A relative path without `~` stays relative through expansion. */
  lemma RelativeStaysRelative(s: string, home: string)
    requires !StartsWith(s, "/") && '~' !in s
    ensures !StartsWith(Expanded(s, home), "/")
  {
    var p := ParsePath(s);
    SplitAvoids(s, '/', '~');
    if p.parts != [] {
      assert p.parts[0] in Split(s, '/');
      assert p.parts[0] != "~" by { assert "~"[0] == '~'; }
      var j := Join(p.parts, "/");
      assert j[0] == p.parts[0][0];
      assert p.parts[0][0] in p.parts[0];
      assert ExpandUser(p, home) == p;
      assert Expanded(s, home) == j;
    } else {
      assert ExpandUser(p, home) == p;
      assert Expanded(s, home) == ".";
      assert "."[..1][0] == '.';
    }
  }

  // Paths already in normal form, and `~`

  /** Valid parts have no `/` in them. */
  lemma ValidNoSlash(parts: seq<string>)
    requires forall k :: 0 <= k < |parts| ==> ValidPart(parts[k])
    ensures forall k :: 0 <= k < |parts| ==> '/' !in parts[k]
  {
    forall k | 0 <= k < |parts| ensures '/' !in parts[k] {
      assert ValidPart(parts[k]);
    }
  }

  /** A list of valid parts is kept whole by `Path`. */
  lemma {:induction false} CleanPartsValid(parts: seq<string>)
    requires forall k :: 0 <= k < |parts| ==> '/' !in parts[k]
    requires forall k :: 0 <= k < |parts| ==> ValidPart(parts[k])
    ensures CleanParts(parts) == parts
  {
    if parts != [] {
      CleanPartsValid(parts[1..]);
    }
  }

  /** A `/`-join of parts starts with the first character of the first part. */
  lemma JoinHead(parts: seq<string>)
    requires parts != [] && parts[0] != []
    ensures Join(parts, "/") != [] && Join(parts, "/")[0] == parts[0][0]
  {
  }

  /** `/` followed by a `/`-join of valid parts has one leading slash,
      splits into `""` and those parts, and parses back into them. */
  lemma ParseAbsolute(parts: seq<string>)
    requires parts != [] && forall k :: 0 <= k < |parts| ==> ValidPart(parts[k])
    ensures !StartsWith("/" + Join(parts, "/"), "//")
    ensures Split("/" + Join(parts, "/"), '/') == [""] + parts
    ensures ParsePath("/" + Join(parts, "/")) == PurePath("/", parts)
  {
    var j := Join(parts, "/");
    var s := "/" + j;
    JoinHead(parts);
    assert ValidPart(parts[0]);
    assert parts[0][0] in parts[0];
    assert s[1] == parts[0][0] != '/';
    assert !StartsWith(s, "//") by { assert s[..2][1] == s[1]; }
    assert StartsWith(s, "/") by { assert s[..1] == "/"; }
    assert RootOf(s) == "/";
    ValidNoSlash(parts);
    SplitJoin(parts);
    assert s[0] == '/' && s[1..] == j;
    assert Split(s, '/') == [[]] + Split(j, '/');
    CleanPartsValid(parts);
    var pieces: seq<string> := [""] + parts;
    assert pieces[0] == "" && pieces[1..] == parts;
    assert CleanParts(pieces) == [] + CleanParts(parts);
  }

  /** Parts of a path in normal form: valid, and none of them `..`. */
  predicate NormalParts(parts: seq<string>)
  {
    forall k :: 0 <= k < |parts| ==> ValidPart(parts[k]) && parts[k] != ".."
  }

  /** One more valid part other than `..` keeps a list in normal form. */
  lemma NormalSnoc(parts: seq<string>, last: string)
    requires NormalParts(parts) && ValidPart(last) && last != ".."
    ensures NormalParts(parts + [last])
  {
    forall k | 0 <= k < |parts + [last]|
      ensures ValidPart((parts + [last])[k]) && (parts + [last])[k] != ".."
    {
      if k < |parts| { assert (parts + [last])[k] == parts[k]; }
    }
  }

  /** The string form of an absolute path with one more part. */
  lemma AbsoluteSnoc(parts: seq<string>, last: string)
    requires parts != []
    ensures "/" + Join(parts + [last], "/") == "/" + Join(parts, "/") + "/" + last
  {
    JoinAppend(parts, last, "/");
    assert "/" + (Join(parts, "/") + "/" + last) == "/" + Join(parts, "/") + "/" + last;
  }

  /** The component loop keeps valid parts other than `..`, after the empty
      component that a leading `/` leaves. */
  lemma {:induction false} NormCompsKeeps(parts: seq<string>, absolute: bool)
    requires NormalParts(parts)
    ensures NormComps([""] + parts, absolute) == parts
    decreases |parts|
  {
    if parts == [] {
      assert [""][..0] == [];
    } else {
      var init, last := parts[..|parts| - 1], parts[|parts| - 1];
      NormCompsKeeps(init, absolute);
      NormCompsLast([""] + init, last, absolute);
      assert [""] + init + [last] == [""] + parts;
    }
  }

  /** A path already in normal form (`/` and valid parts, none of them
      `..`) is left unchanged by `os.path.normpath` and by `~`-expansion. */
  lemma NormalAbsoluteFixed(parts: seq<string>, home: string)
    requires parts != [] && NormalParts(parts)
    ensures NormPath("/" + Join(parts, "/")) == "/" + Join(parts, "/")
    ensures Expanded("/" + Join(parts, "/"), home) == "/" + Join(parts, "/")
  {
    ParseAbsolute(parts);
    NormCompsKeeps(parts, true);
    assert Slashes(1) == "/";
  }

  /** A home directory in normal form does not end in `/`, so it is its
      own `expanduser("~")`. */
  lemma HomeDirOfNormal(homeParts: seq<string>)
    requires homeParts != [] && forall k :: 0 <= k < |homeParts| ==> ValidPart(homeParts[k])
    ensures HomeDir("/" + Join(homeParts, "/")) == "/" + Join(homeParts, "/")
  {
    var j := Join(homeParts, "/");
    var home := "/" + j;
    var last := homeParts[|homeParts| - 1];
    assert ValidPart(last);
    JoinEndsWithLast(homeParts, "/");
    assert j[|j| - 1] == last[|last| - 1] by { assert j[|j| - |last|..][|last| - 1] == last[|last| - 1]; }
    assert last[|last| - 1] in last;
    assert home[|home| - 1] != '/' by { assert home[|home| - 1] == j[|j| - 1]; }
    assert RStripSlash(home) == home;
  }

  /** `Path("~/w")` is the relative path with parts `~` and `w`. */
  lemma ParseTildeWord(w: string)
    requires ValidPart(w)
    ensures ParsePath("~/" + w) == PurePath("", ["~", w])
  {
    assert "~/" + w == "~" + ['/'] + w;
    SplitAppend("~", w, '/');
    SplitNoSeparator("~", '/');
    assert Split("~/" + w, '/') == ["~", w];
    CleanPartsValid(["~", w]);
    assert ("~/" + w)[0] == '~';
    assert RootOf("~/" + w) == "";
  }

  /** Expanding `~/w` puts `w` after the parts of a home directory in
      normal form. */
  lemma ExpandTildeParts(homeParts: seq<string>, home: string, w: string)
    requires homeParts != [] && forall k :: 0 <= k < |homeParts| ==> ValidPart(homeParts[k])
    requires home == "/" + Join(homeParts, "/")
    requires ValidPart(w)
    ensures ExpandUser(ParsePath("~/" + w), home) == PurePath("/", homeParts + [w])
  {
    HomeDirOfNormal(homeParts);
    ParseAbsolute(homeParts);
    ParseTildeWord(w);
    assert ["~", w][1..] == [w];
  }

  /** `~/w` expands to `w` under the home directory, for a home directory
      in normal form (`/home/u`): `~/.ssh` becomes `/home/u/.ssh`. */
  lemma ExpandTilde(homeParts: seq<string>, home: string, w: string)
    requires homeParts != [] && forall k :: 0 <= k < |homeParts| ==> ValidPart(homeParts[k])
    requires home == "/" + Join(homeParts, "/")
    requires ValidPart(w)
    ensures Expanded("~/" + w, home) == home + "/" + w
  {
    var e := ExpandUser(ParsePath("~/" + w), home);
    assert e == PurePath("/", homeParts + [w]) by { ExpandTildeParts(homeParts, home, w); }
    assert PathStr(e) == "/" + Join(homeParts + [w], "/");
    AbsoluteSnoc(homeParts, w);
  }

  // What os.path.normpath promises

  /** The component loop never keeps `""`, `"."` or a piece with `/` in it,
      and for an absolute path it never keeps `..`. */
  lemma {:induction false} NormCompsClean(comps: seq<string>, absolute: bool)
    requires forall k :: 0 <= k < |comps| ==> '/' !in comps[k]
    ensures forall k :: 0 <= k < |NormComps(comps, absolute)| ==> ValidPart(NormComps(comps, absolute)[k])
    ensures absolute ==> forall k :: 0 <= k < |NormComps(comps, absolute)| ==> NormComps(comps, absolute)[k] != ".."
    decreases |comps|
  {
    if comps != [] {
      var init := comps[..|comps| - 1];
      NormCompsClean(init, absolute);
      var acc := NormComps(init, absolute);
      assert NormComps(comps, absolute) == NormStep(acc, comps[|comps| - 1], absolute);
    }
  }

  /** `os.path.normpath` collapses repeated separators and drops `.`
      components: unless the result is `.` or a bare root, it is the kept
      leading slashes followed by components none of which is `""` or
      `.`, and, for an absolute path, none of which is `..`. */
  lemma NormPathCollapses(s: string)
    ensures var r, n := NormPath(s), InitialSlashes(s);
      || r == "."
      || r == Slashes(n)
      || (n < |r| && r[..n] == Slashes(n)
          && (forall c :: c in Split(r[n..], '/') ==> ValidPart(c))
          && (n > 0 ==> forall c :: c in Split(r[n..], '/') ==> c != ".."))
  {
    if s != [] {
      var n := InitialSlashes(s);
      var cs := NormComps(Split(s, '/'), n > 0);
      NormCompsClean(Split(s, '/'), n > 0);
      if cs != [] {
        ValidNoSlash(cs);
        JoinHead(cs);
        SplitJoin(cs);
        var r := Slashes(n) + Join(cs, "/");
        assert NormPath(s) == r;
        assert r[n..] == Join(cs, "/");
        assert r[..n] == Slashes(n);
      }
    }
  }
}
