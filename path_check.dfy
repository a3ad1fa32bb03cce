/** `check_path_patterns` (damage_control.py:233-264): does a shell command
    perform one of a list of operations on a path pattern? */
module PathCheck {
  import opened Wrappers
  import opened Strings
  import opened Paths
  import opened Glob
  import opened Regex
  import opened Templates

  /** `f"Blocked: {operation} operation on {path_type} {path}"`. */
  function OperationReason(operation: string, pathType: string, path: string): string
  {
    "Blocked: " + operation + " operation on " + pathType + " " + path
  }

  /** The regex a glob path is searched with for a template: the template
      without its slot, then the translated glob. */
  function GlobTemplateRegex(t: OpTemplate, path: string): string
  {
    Replace(t.pattern, PathSlot, "") + GlobRegex(path)
  }

  /** The template with the escaped `~`-expanded path in its slot. */
  function ExpandedTemplateRegex(t: OpTemplate, path: string, home: string): string
  {
    Replace(t.pattern, PathSlot, ReEscape(Expanded(path, home)))
  }

  /** The template with the escaped path, as written, in its slot. */
  function OriginalTemplateRegex(t: OpTemplate, path: string): string
  {
    Replace(t.pattern, PathSlot, ReEscape(path))
  }

  /** One template recognises the command. For a glob path: a non-empty
      command prefix and a case-insensitive search that succeeds. For a
      literal path: a case-sensitive search with the expanded path, or,
      when that one compiled and failed, with the path as written. A
      template whose search raises `re.error` does not fire. */
  predicate TemplateFires(command: string, path: string, t: OpTemplate, home: string, search: Search)
  {
    if IsGlobPattern(path) then
      Replace(t.pattern, PathSlot, "") != [] && search(GlobTemplateRegex(t, path), command, true) == Some(true)
    else
      var expanded := search(ExpandedTemplateRegex(t, path, home), command, false);
      expanded == Some(true)
      || (expanded == Some(false) && search(OriginalTemplateRegex(t, path), command, false) == Some(true))
  }

  /** The template's search raises `re.error`, so it is skipped. */
  predicate TemplateErrs(command: string, path: string, t: OpTemplate, home: string, search: Search)
  {
    if IsGlobPattern(path) then
      Replace(t.pattern, PathSlot, "") != [] && search(GlobTemplateRegex(t, path), command, true) == None
    else
      var expanded := search(ExpandedTemplateRegex(t, path, home), command, false);
      expanded == None || (expanded == Some(false) && search(OriginalTemplateRegex(t, path), command, false) == None)
  }

  /** The specification of `check_path_patterns`: the first template that
      fires decides, with its operation in the reason; none gives `(false, "")`. */
  function PatternCheck(command: string, path: string, templates: seq<OpTemplate>, pathType: string,
                     home: string, search: Search): (bool, string)
  {
    if templates == [] then (false, "")
    else if TemplateFires(command, path, templates[0], home, search) then
      (true, OperationReason(templates[0].operation, pathType, path))
    else PatternCheck(command, path, templates[1..], pathType, home, search)
  }

  /** `check_path_patterns`: the glob branch and the literal branch each
      loop over the templates and return at the first match. */
  method CheckPathPatterns(command: string, path: string, patterns: seq<OpTemplate>, pathType: string,
                           home: string, search: Search)
    returns (blocked: bool, reason: string)
    ensures (blocked, reason) == PatternCheck(command, path, patterns, pathType, home, search)
  {
    if IsGlobPattern(path) {
      var globRegex := GlobToRegex(path);
      var i := 0;
      while i < |patterns|
        invariant 0 <= i <= |patterns|
        invariant PatternCheck(command, path, patterns, pathType, home, search)
                  == PatternCheck(command, path, patterns[i..], pathType, home, search)
      {
        var template := patterns[i];
        var cmdPrefix := Replace(template.pattern, PathSlot, "");
        if cmdPrefix != [] {
          var found := search(cmdPrefix + globRegex, command, true);
          if found == Some(true) {
            return true, OperationReason(template.operation, pathType, path);
          }
        }
        assert patterns[i..][1..] == patterns[i + 1..];
        i := i + 1;
      }
    } else {
      var expanded := Expanded(path, home);
      var escapedExpanded := ReEscape(expanded);
      var escapedOriginal := ReEscape(path);
      var i := 0;
      while i < |patterns|
        invariant 0 <= i <= |patterns|
        invariant PatternCheck(command, path, patterns, pathType, home, search)
                  == PatternCheck(command, path, patterns[i..], pathType, home, search)
      {
        var template := patterns[i];
        var patternExpanded := Replace(template.pattern, PathSlot, escapedExpanded);
        var patternOriginal := Replace(template.pattern, PathSlot, escapedOriginal);
        var first := search(patternExpanded, command, false);
        if first.Some? {
          if first.value {
            return true, OperationReason(template.operation, pathType, path);
          }
          var second := search(patternOriginal, command, false);
          if second == Some(true) {
            return true, OperationReason(template.operation, pathType, path);
          }
        }
        assert patterns[i..][1..] == patterns[i + 1..];
        i := i + 1;
      }
    }
    return false, "";
  }

  /** No template fires exactly when the check reports nothing, and then
      its reason is empty. */
  lemma {:induction false} PatternCheckNoMatch(command: string, path: string, templates: seq<OpTemplate>,
                                           pathType: string, home: string, search: Search)
    ensures !PatternCheck(command, path, templates, pathType, home, search).0 <==>
              forall k :: 0 <= k < |templates| ==> !TemplateFires(command, path, templates[k], home, search)
    ensures !PatternCheck(command, path, templates, pathType, home, search).0 ==>
              PatternCheck(command, path, templates, pathType, home, search).1 == ""
  {
    if templates != [] {
      PatternCheckNoMatch(command, path, templates[1..], pathType, home, search);
      NoneShift(templates, t => TemplateFires(command, path, t, home, search));
    }
  }

  /** A reported block names the operation of the FIRST template that fires. */
  lemma {:induction false} PatternCheckFirstMatch(command: string, path: string, templates: seq<OpTemplate>,
                                              pathType: string, home: string, search: Search)
    requires PatternCheck(command, path, templates, pathType, home, search).0
    ensures exists k :: 0 <= k < |templates|
              && TemplateFires(command, path, templates[k], home, search)
              && (forall m :: 0 <= m < k ==> !TemplateFires(command, path, templates[m], home, search))
              && PatternCheck(command, path, templates, pathType, home, search).1
                 == OperationReason(templates[k].operation, pathType, path)
  {
    if !TemplateFires(command, path, templates[0], home, search) {
      var rest := templates[1..];
      PatternCheckFirstMatch(command, path, rest, pathType, home, search);
      var k :| 0 <= k < |rest|
              && TemplateFires(command, path, rest[k], home, search)
              && (forall m :: 0 <= m < k ==> !TemplateFires(command, path, rest[m], home, search))
              && PatternCheck(command, path, rest, pathType, home, search).1
                 == OperationReason(rest[k].operation, pathType, path);
      FirstShift(templates, k, t => TemplateFires(command, path, t, home, search));
    }
  }

  /** No element passes exactly when the head does not and no element of
      the tail does. */
  lemma NoneShift<X>(xs: seq<X>, passes: X -> bool)
    requires xs != []
    ensures (forall k :: 0 <= k < |xs| ==> !passes(xs[k]))
            <==> !passes(xs[0]) && forall k :: 0 <= k < |xs[1..]| ==> !passes(xs[1..][k])
  {
    assert forall k :: 1 <= k < |xs| ==> xs[k] == xs[1..][k - 1];
  }

  /** An element of the tail that no earlier tail element passes, behind a
      head that does not pass either, is the first to pass in the whole list. */
  lemma FirstShift<X>(xs: seq<X>, k: int, passes: X -> bool)
    requires xs != [] && !passes(xs[0])
    requires 0 <= k < |xs| - 1
    requires forall m :: 0 <= m < k ==> !passes(xs[1..][m])
    ensures xs[k + 1] == xs[1..][k]
    ensures forall m :: 0 <= m < k + 1 ==> !passes(xs[m])
  {
    forall m | 0 < m < k + 1
      ensures !passes(xs[m])
    {
      assert xs[m] == xs[1..][m - 1];
    }
  }

  /** A template whose regex does not compile never fires. */
  lemma ErringTemplateNeverFires(command: string, path: string, t: OpTemplate, home: string, search: Search)
    requires TemplateErrs(command, path, t, home, search)
    ensures !TemplateFires(command, path, t, home, search)
  {
  }

  /** A first template that does not fire is passed over. */
  lemma SkipFirst(command: string, path: string, t: OpTemplate, after: seq<OpTemplate>,
                  pathType: string, home: string, search: Search)
    requires !TemplateFires(command, path, t, home, search)
    ensures PatternCheck(command, path, [] + [t] + after, pathType, home, search)
            == PatternCheck(command, path, [] + after, pathType, home, search)
  {
    var with := [] + [t] + after;
    assert with[0] == t;
    assert with[1..] == after;
    assert [] + after == after;
  }

  /** Two lists with the same result keep it when the same template is put
      in front of both. */
  lemma SameTail(command: string, path: string, x: OpTemplate, l1: seq<OpTemplate>, l2: seq<OpTemplate>,
                 pathType: string, home: string, search: Search)
    requires PatternCheck(command, path, l1, pathType, home, search) == PatternCheck(command, path, l2, pathType, home, search)
    ensures PatternCheck(command, path, [x] + l1, pathType, home, search)
            == PatternCheck(command, path, [x] + l2, pathType, home, search)
  {
    assert ([x] + l1)[0] == x == ([x] + l2)[0];
    assert ([x] + l1)[1..] == l1;
    assert ([x] + l2)[1..] == l2;
  }

  /** A non-empty first part splits off its head on both sides of the removal. */
  lemma ConsSplit<X>(before: seq<X>, t: X, after: seq<X>)
    requires before != []
    ensures before + [t] + after == [before[0]] + (before[1..] + [t] + after)
    ensures before + after == [before[0]] + (before[1..] + after)
  {
    assert before == [before[0]] + before[1..];
  }

  /** Removing a template that does not fire (for one, a template whose
      regex raises `re.error`) changes nothing: the check skips it. */
  lemma {:induction false} SkipSilentTemplate(command: string, path: string, before: seq<OpTemplate>, t: OpTemplate,
                                             after: seq<OpTemplate>, pathType: string, home: string, search: Search)
    requires !TemplateFires(command, path, t, home, search)
    ensures PatternCheck(command, path, before + [t] + after, pathType, home, search)
            == PatternCheck(command, path, before + after, pathType, home, search)
  {
    if before == [] {
      SkipFirst(command, path, t, after, pathType, home, search);
    } else {
      SkipSilentTemplate(command, path, before[1..], t, after, pathType, home, search);
      SameTail(command, path, before[0], before[1..] + [t] + after, before[1..] + after, pathType, home, search);
      ConsSplit(before, t, after);
    }
  }

  /** A larger template list blocks whatever a smaller one blocks: the
      check with the read-only templates fires whenever the check with the
      no-delete templates fires. */
  lemma MoreTemplatesBlockMore(command: string, path: string, sub: seq<OpTemplate>, sup: seq<OpTemplate>,
                               pathType: string, pathType': string, home: string, search: Search)
    requires forall t :: t in sub ==> t in sup
    requires PatternCheck(command, path, sub, pathType, home, search).0
    ensures PatternCheck(command, path, sup, pathType', home, search).0
  {
    PatternCheckNoMatch(command, path, sub, pathType, home, search);
    PatternCheckNoMatch(command, path, sup, pathType', home, search);
    var k :| 0 <= k < |sub| && TemplateFires(command, path, sub[k], home, search);
    assert sub[k] in sup;
  }

  /** For a template with its slot at the end (every template in the
      tables, by `TablesHaveSlotAtEnd`), the glob search drops the slot and
      appends the translated glob to the command prefix; the literal searches
      put the escaped path right after the prefix. */
  lemma TemplateRegexes(t: OpTemplate, path: string, home: string)
    requires SlotAtEnd(t)
    ensures GlobTemplateRegex(t, path) == CommandPrefix(t) + GlobRegex(path)
    ensures ExpandedTemplateRegex(t, path, home) == CommandPrefix(t) + ReEscape(Expanded(path, home))
    ensures OriginalTemplateRegex(t, path) == CommandPrefix(t) + ReEscape(path)
    ensures Replace(t.pattern, PathSlot, "") != []
  {
    var prefix := CommandPrefix(t);
    FillSlot(t, "");
    assert Replace(t.pattern, PathSlot, "") == prefix by { assert prefix + "" == prefix; }
    var expanded := ReEscape(Expanded(path, home));
    FillSlot(t, expanded);
    var original := ReEscape(path);
    FillSlot(t, original);
  }
}
