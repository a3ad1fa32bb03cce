/** What the guard needs from Python's `re` module. `re.search` is not
    reimplemented: it is a parameter, `Search(pattern, text, ignoreCase)`,
    whose `None` stands for `re.error` (the pattern does not compile). What
    `re.escape` produces, and what the command-position anchor means for a
    literal keyword, are defined here concretely, together with the
    predicates that say an oracle treats them as Python's `re` does. */
module Regex {
  import opened Wrappers
  import opened Strings

  /** `re.search(pattern, text, re.IGNORECASE if ignoreCase else 0)`:
      `Some(found)`, or `None` when the pattern raises `re.error`. */
  type Search = (string, string, bool) -> Option<bool>

  // re.escape

  /** The characters `re.escape` prefixes with a backslash (Python 3.7 and later). */
  predicate IsEscaped(c: char)
  {
    c in "()[]{}?*+-|^$\\.&~# \t\n\r\U{000B}\U{000C}"
  }

  function EscapeChar(c: char): (r: string)
  {
    if IsEscaped(c) then ['\\', c] else [c]
  }

  /** `re.escape(s)`: each character translated on its own. */
  function ReEscape(s: string): (r: string)
    ensures |s| <= |r| <= 2 * |s|
  {
    if s == [] then [] else EscapeChar(s[0]) + ReEscape(s[1..])
  }

  /** Reads an escaped string back: a backslash stands for the character after it. */
  function Unescape(r: string): string
    decreases |r|
  {
    if r == [] then []
    else if r[0] == '\\' && |r| >= 2 then [r[1]] + Unescape(r[2..])
    else [r[0]] + Unescape(r[1..])
  }

  /** Escaping loses nothing: the literal is read back from its escaped
      form, so two different paths never share an escaped form. */
  lemma {:induction false} EscapeRoundTrip(s: string)
    ensures Unescape(ReEscape(s)) == s
  {
    if s != [] {
      var e, rest := EscapeChar(s[0]), ReEscape(s[1..]);
      var r := e + rest;
      EscapeRoundTrip(s[1..]);
      if IsEscaped(s[0]) {
        assert r[0] == '\\' && r[1] == s[0] && r[2..] == rest;
      } else {
        assert r[0] == s[0] && s[0] != '\\' && r[1..] == rest;
      }
    }
  }

  // Command-position anchoring

  /** `_CMD_POSITION_PREFIX`: start of the command, or a shell separator
      followed by optional whitespace. */
  const CmdPositionPrefix: string := "(?:^|[;|&(]\\s*)"

  /** The separator class `[;|&(]` of the anchor. */
  predicate IsSeparator(c: char)
  {
    c == ';' || c == '|' || c == '&' || c == '('
  }

  /** Python's `\s` on `str` patterns: the characters `str.isspace` accepts. */
  predicate IsSpace(c: char)
  {
    || c == ' ' || '\t' <= c <= '\r' || '\U{001C}' <= c <= '\U{001F}'
    || c == '\U{0085}' || c == '\U{00A0}' || c == '\U{1680}' || '\U{2000}' <= c <= '\U{200A}'
    || c == '\U{2028}' || c == '\U{2029}' || c == '\U{202F}' || c == '\U{205F}' || c == '\U{3000}'
  }

  /** The text before index `i` ends in a separator followed by whitespace
      only: `[;|&(]\s*` can end at `i`. */
  predicate AfterSeparator(cmd: string, i: int)
    requires 0 <= i <= |cmd|
  {
    i > 0 && (IsSeparator(cmd[i - 1]) || (IsSpace(cmd[i - 1]) && AfterSeparator(cmd, i - 1)))
  }

  /** The anchor can end at index `i`: the start of the command, or just
      after a separator and its whitespace. */
  predicate AtCommandPosition(cmd: string, i: int)
    requires 0 <= i <= |cmd|
  {
    i == 0 || AfterSeparator(cmd, i)
  }

  /** The characters compare equal, ignoring ASCII case when asked. */
  predicate SameChar(a: char, b: char, ignoreCase: bool)
  {
    if ignoreCase then LowerChar(a) == LowerChar(b) else a == b
  }

  /** The keyword `kw` occurs in `cmd` at index `i`. */
  predicate KeywordAt(cmd: string, kw: string, i: int, ignoreCase: bool)
  {
    0 <= i <= |cmd| - |kw| && forall k :: 0 <= k < |kw| ==> SameChar(cmd[i + k], kw[k], ignoreCase)
  }

  /** What `re.search(_CMD_POSITION_PREFIX + re.escape(kw), cmd)` finds: the
      keyword at a command position. Position only: `eval` is found at the
      start of `evaluate`. */
  predicate AnchoredKeyword(cmd: string, kw: string, ignoreCase: bool)
  {
    exists i | 0 <= i <= |cmd| - |kw| :: AtCommandPosition(cmd, i) && KeywordAt(cmd, kw, i, ignoreCase)
  }

  /** The anchored pattern for a literal keyword. */
  function AnchoredPattern(kw: string): string
  {
    CmdPositionPrefix + ReEscape(kw)
  }

  /** The oracle finds an escaped literal exactly where it occurs. */
  ghost predicate FindsLiterals(search: Search)
  {
    forall s, text :: search(ReEscape(s), text, false) == Some(Contains(text, s))
  }

  /** Every character is ASCII. */
  predicate IsAscii(s: string)
  {
    forall k :: 0 <= k < |s| ==> s[k] < '\U{0080}'
  }

  /** The oracle reads the anchor as `AnchoredKeyword` does, on ASCII
      keywords and commands. Beyond ASCII, `re.IGNORECASE` folds more than
      `LowerChar` does (the Kelvin sign matches `k`), so nothing is said
      there. */
  ghost predicate AnchorsKeywords(search: Search)
  {
    forall kw, cmd, ignoreCase | IsAscii(kw) && IsAscii(cmd) ::
      search(AnchoredPattern(kw), cmd, ignoreCase) == Some(AnchoredKeyword(cmd, kw, ignoreCase))
  }

  /** The anchor, written without recursion: index `i` is a command position
      exactly when it is 0, or some separator before it is followed by
      nothing but whitespace up to `i`. */
  lemma {:induction false} AtCommandPositionIff(cmd: string, i: int)
    requires 0 <= i <= |cmd|
    ensures AtCommandPosition(cmd, i) <==>
              i == 0 || exists j :: 0 <= j < i && IsSeparator(cmd[j]) && forall m :: j < m < i ==> IsSpace(cmd[m])
    decreases i
  {
    if i > 0 {
      if AfterSeparator(cmd, i) && !IsSeparator(cmd[i - 1]) {
        AtCommandPositionIff(cmd, i - 1);
        assert i - 1 != 0 by { assert AfterSeparator(cmd, i - 1); }
        var j :| 0 <= j < i - 1 && IsSeparator(cmd[j]) && forall m :: j < m < i - 1 ==> IsSpace(cmd[m]);
        assert forall m :: j < m < i ==> IsSpace(cmd[m]);
      }
      if exists j :: 0 <= j < i && IsSeparator(cmd[j]) && forall m :: j < m < i ==> IsSpace(cmd[m]) {
        var j :| 0 <= j < i && IsSeparator(cmd[j]) && forall m :: j < m < i ==> IsSpace(cmd[m]);
        if j < i - 1 {
          AtCommandPositionIff(cmd, i - 1);
          assert forall m :: j < m < i - 1 ==> IsSpace(cmd[m]);
          assert AfterSeparator(cmd, i - 1);
        }
      }
    }
  }

  /** Without any separator in the command, the anchor only allows the very
      start: a keyword later in the command is never found. */
  lemma {:induction false} NoSeparatorOnlyStart(cmd: string, kw: string, ignoreCase: bool)
    requires forall k :: 0 <= k < |cmd| ==> !IsSeparator(cmd[k])
    ensures AnchoredKeyword(cmd, kw, ignoreCase) <==> KeywordAt(cmd, kw, 0, ignoreCase)
  {
    forall i | 0 < i <= |cmd| ensures !AtCommandPosition(cmd, i) {
      AtCommandPositionIff(cmd, i);
    }
  }

  /** A keyword right after a separator and whitespace is found. */
  lemma KeywordAfterSeparator(cmd: string, kw: string, j: int, i: int, ignoreCase: bool)
    requires 0 <= j < i <= |cmd| && IsSeparator(cmd[j]) && forall m :: j < m < i ==> IsSpace(cmd[m])
    requires KeywordAt(cmd, kw, i, ignoreCase)
    ensures AnchoredKeyword(cmd, kw, ignoreCase)
  {
    AtCommandPositionIff(cmd, i);
  }

  // The cases of the anchor's unit tests

  /** A keyword given as a slice of the command occurs there. */
  lemma KeywordAtSlice(cmd: string, kw: string, i: int)
    requires 0 <= i <= |cmd| - |kw| && cmd[i..i + |kw|] == kw
    ensures KeywordAt(cmd, kw, i, false)
  {
    forall k | 0 <= k < |kw| ensures cmd[i + k] == kw[k] {
      assert cmd[i..i + |kw|][k] == cmd[i + k];
    }
  }

  /** `eval` after `; ` and after `;` is at a command position. */
  lemma AnchorAfterSemicolon()
    ensures AnchoredKeyword("echo hi; eval bad", "eval", false)
    ensures AnchoredKeyword("echo hi;eval bad", "eval", false)
  {
    KeywordAtSlice("echo hi; eval bad", "eval", 9);
    KeywordAfterSeparator("echo hi; eval bad", "eval", 7, 9, false);
    KeywordAtSlice("echo hi;eval bad", "eval", 8);
    KeywordAfterSeparator("echo hi;eval bad", "eval", 7, 8, false);
  }

  /** After `|` without spaces. */
  lemma AnchorAfterPipe()
    ensures AnchoredKeyword("cat file|eval", "eval", false)
  {
    KeywordAtSlice("cat file|eval", "eval", 9);
    KeywordAfterSeparator("cat file|eval", "eval", 8, 9, false);
  }

  /** After `&&` with spaces. */
  lemma AnchorAfterAnd()
    ensures AnchoredKeyword("true && mount /dev", "mount", false)
  {
    KeywordAtSlice("true && mount /dev", "mount", 8);
    KeywordAfterSeparator("true && mount /dev", "mount", 6, 8, false);
  }

  /** After `||` without spaces. */
  lemma AnchorAfterOr()
    ensures AnchoredKeyword("false||shutdown now", "shutdown", false)
  {
    KeywordAtSlice("false||shutdown now", "shutdown", 7);
    KeywordAfterSeparator("false||shutdown now", "shutdown", 6, 7, false);
  }

  /** After the opening parenthesis of a command substitution. */
  lemma AnchorAfterParenthesis()
    ensures AnchoredKeyword("$(eval dangerous)", "eval", false)
  {
    KeywordAtSlice("$(eval dangerous)", "eval", 2);
    KeywordAfterSeparator("$(eval dangerous)", "eval", 1, 2, false);
  }

  /** Not after a plain space, inside quotes, or after `=`. */
  lemma AnchorRejectsArguments()
    ensures !AnchoredKeyword("docker exec container", "exec", false)
    ensures !AnchoredKeyword("git commit -m \"eval fix\"", "eval", false)
    ensures !AnchoredKeyword("echo 'mount point'", "mount", false)
    ensures !AnchoredKeyword("VAR=eval something", "eval", false)
  {
    NoSeparatorOnlyStart("docker exec container", "exec", false);
    assert !KeywordAt("docker exec container", "exec", 0, false) by { assert "docker exec container"[0] != "exec"[0]; }
    NoSeparatorOnlyStart("git commit -m \"eval fix\"", "eval", false);
    assert !KeywordAt("git commit -m \"eval fix\"", "eval", 0, false) by { assert "git commit -m \"eval fix\""[0] != "eval"[0]; }
    NoSeparatorOnlyStart("echo 'mount point'", "mount", false);
    assert !KeywordAt("echo 'mount point'", "mount", 0, false) by { assert "echo 'mount point'"[0] != "mount"[0]; }
    NoSeparatorOnlyStart("VAR=eval something", "eval", false);
    assert !KeywordAt("VAR=eval something", "eval", 0, false) by { assert "VAR=eval something"[0] != "eval"[0]; }
  }

  /** The anchor constrains position only: a longer word at the start still
      contains the keyword there. */
  lemma AnchorIsNotWordBoundary()
    ensures AnchoredKeyword("evaluate this", "eval", false)
  {
    KeywordAtSlice("evaluate this", "eval", 0);
  }

  /** The anchor does not know about quotes: a separator inside a quoted
      argument still opens a command position. */
  lemma AnchorIgnoresQuotes()
    ensures AnchoredKeyword("git commit -m \"fix; mount point\"", "mount", false)
  {
    KeywordAtSlice("git commit -m \"fix; mount point\"", "mount", 20);
    KeywordAfterSeparator("git commit -m \"fix; mount point\"", "mount", 18, 20, false);
  }
}
