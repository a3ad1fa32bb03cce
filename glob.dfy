/** Glob detection, the glob-to-regex translation used inside shell commands
    (damage_control.py:37-54), and the shell-style matcher `fnmatch` that the
    path matcher uses for file paths. */
module Glob {
  import opened Strings

  /** `is_glob_pattern`: the pattern contains `*`, `?` or `[`. */
  predicate IsGlobPattern(p: string)
  {
    '*' in p || '?' in p || '[' in p
  }

  /** The characters whose presence makes a pattern a glob. */
  predicate IsGlobChar(c: char)
  {
    c == '*' || c == '?' || c == '['
  }

  lemma GlobPatternIffGlobChar(p: string)
    ensures IsGlobPattern(p) <==> exists i :: 0 <= i < |p| && IsGlobChar(p[i])
  {
    if IsGlobPattern(p) {
      var c :| c in p && IsGlobChar(c);
      var i :| 0 <= i < |p| && p[i] == c;
    }
  }

  /** A concatenation is a glob exactly when one of its halves is. */
  lemma GlobPatternAppend(a: string, b: string)
    ensures IsGlobPattern(a + b) <==> IsGlobPattern(a) || IsGlobPattern(b)
  {
    GlobPatternIffGlobChar(a);
    GlobPatternIffGlobChar(b);
    GlobPatternIffGlobChar(a + b);
    if IsGlobPattern(a + b) {
      var i :| 0 <= i < |a + b| && IsGlobChar((a + b)[i]);
      if i < |a| { assert a[i] == (a + b)[i]; } else { assert b[i - |a|] == (a + b)[i]; }
    }
    if IsGlobPattern(b) {
      var i :| 0 <= i < |b| && IsGlobChar(b[i]);
      assert (a + b)[|a| + i] == b[i];
    }
  }

  /** What `*` becomes: any run of characters other than whitespace and `/`. */
  const StarRegex: string := "[^\\s/]*"
  /** What `?` becomes: one character other than whitespace and `/`. */
  const QuestionRegex: string := "[^\\s/]"

  /** The characters `glob_to_regex` escapes with a backslash. */
  predicate IsRegexSpecial(c: char)
  {
    c in "\\.^$+{}[]|()"
  }

  /** The regex fragment one glob character becomes. */
  function GlobCharRegex(c: char): (r: string)
    ensures r != [] && r[0] != '*'
  {
    if c == '*' then StarRegex
    else if c == '?' then QuestionRegex
    else if IsRegexSpecial(c) then ['\\', c]
    else [c]
  }

  /** The regex fragment a glob pattern becomes: the fragments of its
      characters, in order. */
  function GlobRegex(p: string): string
  {
    if p == [] then [] else GlobCharRegex(p[0]) + GlobRegex(p[1..])
  }

  /** `glob_to_regex`: appends each character's fragment to the result. */
  method GlobToRegex(globPattern: string) returns (result: string)
    ensures result == GlobRegex(globPattern)
  {
    result := "";
    for i := 0 to |globPattern|
      invariant result == GlobRegex(globPattern[..i])
    {
      var c := globPattern[i];
      GlobRegexAppend(globPattern[..i], [c]);
      assert globPattern[..i + 1] == globPattern[..i] + [c];
      assert GlobRegex([c]) == GlobCharRegex(c) by { assert [c][1..] == []; }
      if c == '*' {
        result := result + StarRegex;
      } else if c == '?' {
        result := result + QuestionRegex;
      } else if c in "\\.^$+{}[]|()" {
        result := result + ['\\', c];
      } else {
        result := result + [c];
      }
    }
    assert globPattern[..|globPattern|] == globPattern;
  }

  /** The translation distributes over concatenation: each character is
      translated independently of its neighbours. */
  lemma {:induction false} GlobRegexAppend(a: string, b: string)
    ensures GlobRegex(a + b) == GlobRegex(a) + GlobRegex(b)
  {
    if a == [] {
      assert a + b == b;
    } else {
      var ab := a + b;
      assert ab[0] == a[0];
      assert ab[1..] == a[1..] + b;
      GlobRegexAppend(a[1..], b);
      var rc, ra, rb := GlobCharRegex(a[0]), GlobRegex(a[1..]), GlobRegex(b);
      assert rc + (ra + rb) == (rc + ra) + rb;
    }
  }

  /** A translated pattern never starts with `*`: a leading `*` of the glob
      becomes `[`. */
  lemma GlobRegexHead(p: string)
    ensures GlobRegex(p) == [] || GlobRegex(p)[0] != '*'
  {
  }

  /** Reads a translated fragment back into the glob it came from. */
  function RegexToGlob(r: string): string
    decreases |r|
  {
    if r == [] then []
    else if StartsWith(r, StarRegex) then "*" + RegexToGlob(r[|StarRegex|..])
    else if StartsWith(r, QuestionRegex) then "?" + RegexToGlob(r[|QuestionRegex|..])
    else if r[0] == '\\' && |r| >= 2 then [r[1]] + RegexToGlob(r[2..])
    else [r[0]] + RegexToGlob(r[1..])
  }

  lemma ReadBackStar(tail: string)
    ensures RegexToGlob(StarRegex + tail) == "*" + RegexToGlob(tail)
  {
    var r := StarRegex + tail;
    assert r[..|StarRegex|] == StarRegex;
    assert r[|StarRegex|..] == tail;
  }

  lemma ReadBackQuestion(tail: string)
    requires tail == [] || tail[0] != '*'
    ensures RegexToGlob(QuestionRegex + tail) == "?" + RegexToGlob(tail)
  {
    var r := QuestionRegex + tail;
    assert r[..|QuestionRegex|] == QuestionRegex;
    assert !StartsWith(r, StarRegex) by {
      if |r| >= |StarRegex| { assert r[|StarRegex| - 1] == tail[0]; }
    }
    assert r[|QuestionRegex|..] == tail;
  }

  lemma ReadBackPlain(c: char, tail: string)
    requires c != '[' && c != '\\'
    ensures RegexToGlob([c] + tail) == [c] + RegexToGlob(tail)
  {
    var r := [c] + tail;
    assert r[0] == c;
    assert r[1..] == tail;
  }

  lemma ReadBackEscaped(c: char, tail: string)
    ensures RegexToGlob(['\\', c] + tail) == [c] + RegexToGlob(tail)
  {
    var r := ['\\', c] + tail;
    assert r[0] == '\\' && r[1] == c;
    assert r[2..] == tail;
  }

  /** Reading back one translated character, whatever follows it. */
  lemma ReadBackChar(c: char, tail: string)
    requires tail == [] || tail[0] != '*'
    ensures RegexToGlob(GlobCharRegex(c) + tail) == [c] + RegexToGlob(tail)
  {
    if c == '*' {
      ReadBackStar(tail);
    } else if c == '?' {
      ReadBackQuestion(tail);
    } else if IsRegexSpecial(c) {
      ReadBackEscaped(c, tail);
    } else {
      ReadBackPlain(c, tail);
    }
  }

  /** The translation loses nothing: the glob can be read back from its
      fragment, so two different globs never share a fragment. Brackets in
      particular are escaped rather than kept as classes. */
  lemma {:induction false} GlobRegexRoundTrip(p: string)
    ensures RegexToGlob(GlobRegex(p)) == p
    decreases |p|
  {
    if p != [] {
      GlobRegexRoundTrip(p[1..]);
      GlobRegexHead(p[1..]);
      ReadBackChar(p[0], GlobRegex(p[1..]));
    }
  }

  // fnmatch

  /** The first index at or after `j` that holds `]`, or `|pat|` if none does. */
  function ScanToClose(pat: string, j: nat): (k: nat)
    requires j <= |pat|
    ensures j <= k <= |pat|
    ensures k < |pat| ==> pat[k] == ']'
    ensures forall m :: j <= m < k ==> pat[m] != ']'
    decreases |pat| - j
  {
    if j == |pat| || pat[j] == ']' then j else ScanToClose(pat, j + 1)
  }

  /** Where `fnmatch` looks for the `]` closing a class that opens at
      `pat[0]`: a leading `!` and then a leading `]` belong to the class. */
  function BracketEnd(pat: string): (j: nat)
    requires pat != [] && pat[0] == '['
    ensures 2 <= j <= |pat| || (j == 1 && |pat| == 1)
    ensures j < |pat| ==> pat[j] == ']'
  {
    var j1 := if 1 < |pat| && pat[1] == '!' then 2 else 1;
    var j2 := if j1 < |pat| && pat[j1] == ']' then j1 + 1 else j1;
    ScanToClose(pat, j2)
  }

  /** Membership in a class body: single characters and `a-z` ranges. */
  function InClassItems(c: char, items: string): bool
    decreases |items|
  {
    if items == [] then false
    else if |items| >= 3 && items[1] == '-' then (items[0] <= c <= items[2]) || InClassItems(c, items[3..])
    else c == items[0] || InClassItems(c, items[1..])
  }

  /** A bracket class `[body]`; a leading `!` negates it. */
  predicate ClassMatches(c: char, body: string)
  {
    if body != [] && body[0] == '!' then !InClassItems(c, body[1..]) else InClassItems(c, body)
  }

  /** `fnmatch.fnmatchcase(name, pat)`: `*` matches any run of characters
      (including `/`), `?` any one character, `[...]` a class, and an
      unclosed `[` itself; the whole name must be matched. */
  function GlobMatch(name: string, pat: string): bool
    decreases |name| + |pat|
  {
    if pat == [] then name == []
    else if pat[0] == '*' then
      GlobMatch(name, pat[1..]) || (name != [] && GlobMatch(name[1..], pat))
    else if pat[0] == '?' then
      name != [] && GlobMatch(name[1..], pat[1..])
    else if pat[0] == '[' && BracketEnd(pat) < |pat| then
      var j := BracketEnd(pat);
      name != [] && ClassMatches(name[0], pat[1..j]) && GlobMatch(name[1..], pat[j + 1..])
    else
      name != [] && name[0] == pat[0] && GlobMatch(name[1..], pat[1..])
  }

  /** `*` alone matches every name. */
  lemma {:induction false} StarMatchesAll(name: string)
    ensures GlobMatch(name, "*")
    decreases |name|
  {
    assert "*"[1..] == [];
    if name != [] {
      StarMatchesAll(name[1..]);
    }
  }

  /** A pattern without glob characters matches exactly itself. */
  lemma {:induction false} LiteralGlobMatch(name: string, pat: string)
    requires !IsGlobPattern(pat)
    ensures GlobMatch(name, pat) <==> name == pat
    decreases |pat|
  {
    if pat != [] {
      assert !IsGlobPattern(pat[1..]) by { assert pat == [pat[0]] + pat[1..]; GlobPatternAppend([pat[0]], pat[1..]); }
      if name != [] {
        LiteralGlobMatch(name[1..], pat[1..]);
        if name[1..] == pat[1..] && name[0] == pat[0] { assert name == pat; }
      }
    }
  }

  /** `*` followed by a literal suffix matches exactly the names that end
      with that suffix (`*.pem` matches `server.pem`). */
  lemma {:induction false} StarSuffixMatch(name: string, suffix: string)
    requires !IsGlobPattern(suffix)
    ensures GlobMatch(name, "*" + suffix) <==> EndsWith(name, suffix)
    decreases |name|
  {
    var pat := "*" + suffix;
    assert pat[0] == '*' && pat[1..] == suffix;
    assert GlobMatch(name, pat) <==> GlobMatch(name, suffix) || (name != [] && GlobMatch(name[1..], pat));
    LiteralGlobMatch(name, suffix);
    if name != [] {
      StarSuffixMatch(name[1..], suffix);
      assert EndsWith(name, suffix) <==> name == suffix || EndsWith(name[1..], suffix) by {
        if |suffix| < |name| {
          assert name[|name| - |suffix|..] == name[1..][|name[1..]| - |suffix|..];
        } else if |suffix| == |name| {
          assert name[|name| - |suffix|..] == name;
          assert !EndsWith(name[1..], suffix);
        }
      }
    }
  }

  /** A leading `*` lets anything come before what the rest of the pattern
      matches. */
  lemma {:induction false} StarAbsorbs(x: string, rest: string, pat: string)
    requires GlobMatch(rest, pat)
    ensures GlobMatch(x + rest, "*" + pat)
    decreases |x|
  {
    var sp := "*" + pat;
    assert sp[0] == '*' && sp[1..] == pat;
    if x == [] {
      assert x + rest == rest;
    } else {
      StarAbsorbs(x[1..], rest, pat);
      assert (x + rest)[1..] == x[1..] + rest;
    }
  }

  /** A literal at the front of the pattern matches itself at the front
      of the name. */
  lemma {:induction false} LiteralPrefixMatch(lit: string, name: string, pat: string)
    requires !IsGlobPattern(lit) && GlobMatch(name, pat)
    ensures GlobMatch(lit + name, lit + pat)
    decreases |lit|
  {
    if lit == [] {
      assert lit + name == name && lit + pat == pat;
    } else {
      var ln, lp := lit + name, lit + pat;
      assert !IsGlobPattern(lit[1..]) by { assert lit == [lit[0]] + lit[1..]; GlobPatternAppend([lit[0]], lit[1..]); }
      assert lit[0] in lit;
      LiteralPrefixMatch(lit[1..], name, pat);
      assert ln[0] == lit[0] && ln[1..] == lit[1..] + name;
      assert lp[0] == lit[0] && lp[1..] == lit[1..] + pat;
    }
  }

  // The pattern "**/d/*" matches every string with "/d/" in it, since `*`
  // also matches `/`: the pattern reaches directories at any depth.
  lemma DoubleStarDir(x: string, d: string, y: string)
    requires !IsGlobPattern(d)
    ensures GlobMatch(x + "/" + d + "/" + y, "**/" + d + "/*")
  {
    var lit := "/" + d + "/";
    assert !IsGlobPattern(lit) by {
      GlobPatternAppend("/", d);
      GlobPatternAppend("/" + d, "/");
    }
    StarMatchesAll(y);
    LiteralPrefixMatch(lit, y, "*");
    var p1 := "*" + (lit + "*");
    assert p1[0] == '*' && p1[1..] == lit + "*";
    assert GlobMatch(lit + y, p1);
    StarAbsorbs(x, lit + y, p1);
    assert "*" + p1 == "**/" + d + "/*";
    assert x + (lit + y) == x + "/" + d + "/" + y;
  }
}
