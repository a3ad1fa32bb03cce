/** What the handlers promise: stage order and precedence, first-match
    reasons, skip-on-error, the meaning of the anchor and of zero-access
    mentions, and the read/write asymmetry of read-only paths. */
module HandlerProperties {
  import opened Wrappers
  import opened Strings
  import opened Paths
  import opened Glob
  import opened Regex
  import opened Templates
  import opened PathCheck
  import opened PathMatch
  import opened Decisions
  import opened Config
  import opened Handlers

  // The stages, one at a time

  /** No rule decides exactly when no rule fires. */
  lemma {:induction false} RuleStageNone(rules: seq<Rule>, command: string, search: Search)
    ensures RuleStage(rules, command, search) == None <==>
              forall k :: 0 <= k < |rules| ==> !RuleFires(rules[k], command, search)
  {
    if rules != [] {
      RuleStageNone(rules[1..], command, search);
      NoneShift(rules, r => RuleFires(r, command, search));
    }
  }

  /** When a rule decides, it is the first rule that fires, with its own
      ask flag and reason: later rules are never consulted. */
  lemma {:induction false} RuleStageFirst(rules: seq<Rule>, command: string, search: Search)
    requires RuleStage(rules, command, search).Some?
    ensures exists k :: 0 <= k < |rules| && RuleFires(rules[k], command, search)
              && (forall m :: 0 <= m < k ==> !RuleFires(rules[m], command, search))
              && RuleStage(rules, command, search) == Some(RuleOutcome(rules[k], command))
  {
    if !RuleFires(rules[0], command, search) {
      RuleStageFirst(rules[1..], command, search);
      var k :| 0 <= k < |rules[1..]| && RuleFires(rules[1..][k], command, search)
               && (forall m :: 0 <= m < k ==> !RuleFires(rules[1..][m], command, search))
               && RuleStage(rules[1..], command, search) == Some(RuleOutcome(rules[1..][k], command));
      FirstShift(rules, k, r => RuleFires(r, command, search));
    }
  }

  /** A rule whose regex raises `re.error` (or finds nothing) can be removed
      without changing the rule stage. */
  lemma {:induction false} SilentRuleSkipped(before: seq<Rule>, rule: Rule, after: seq<Rule>, command: string, search: Search)
    requires search(EffectivePattern(rule), command, true) != Some(true)
    ensures RuleStage(before + [rule] + after, command, search) == RuleStage(before + after, command, search)
  {
    if before == [] {
      assert (before + [rule] + after)[1..] == after;
      assert before + after == after;
    } else {
      SilentRuleSkipped(before[1..], rule, after, command, search);
      assert (before + [rule] + after)[1..] == before[1..] + [rule] + after;
      assert (before + after)[1..] == before[1..] + after;
      assert (before + [rule] + after)[0] == (before + after)[0] == before[0];
    }
  }

  /** No zero-access entry decides exactly when the command mentions none. */
  lemma {:induction false} ZeroAccessStageNone(zeroPaths: seq<string>, command: string, home: string, search: Search)
    ensures ZeroAccessStage(zeroPaths, command, home, search) == None <==>
              forall k :: 0 <= k < |zeroPaths| ==> !MentionsZeroAccess(command, zeroPaths[k], home, search)
  {
    if zeroPaths != [] {
      ZeroAccessStageNone(zeroPaths[1..], command, home, search);
      NoneShift(zeroPaths, z => MentionsZeroAccess(command, z, home, search));
    }
  }

  /** No protected path decides exactly when no path's template check fires. */
  lemma {:induction false} PathStageNone(paths: seq<string>, command: string, templates: seq<OpTemplate>,
                                        pathType: string, home: string, search: Search)
    ensures PathStage(paths, command, templates, pathType, home, search) == None <==>
              forall k :: 0 <= k < |paths| ==> !PatternCheck(command, paths[k], templates, pathType, home, search).0
  {
    if paths != [] {
      PathStageNone(paths[1..], command, templates, pathType, home, search);
      NoneShift(paths, p => PatternCheck(command, p, templates, pathType, home, search).0);
    }
  }

  /** The outcome of each Bash stage after the rules is a block with the
      truncated command as its context and a reason starting `Blocked: `. */
  lemma {:induction false} ZeroAccessStageBlocks(zeroPaths: seq<string>, command: string, home: string, search: Search)
    requires ZeroAccessStage(zeroPaths, command, home, search).Some?
    ensures ZeroAccessStage(zeroPaths, command, home, search).value.Block?
    ensures ZeroAccessStage(zeroPaths, command, home, search).value.target == Truncate(command)
    ensures StartsWith(ZeroAccessStage(zeroPaths, command, home, search).value.reason, "Blocked: ")
  {
    if !MentionsZeroAccess(command, zeroPaths[0], home, search) {
      ZeroAccessStageBlocks(zeroPaths[1..], command, home, search);
    } else {
      ZeroAccessReasonBlocked(zeroPaths[0]);
    }
  }

  lemma ZeroAccessReasonBlocked(zeroPath: string)
    ensures StartsWith(ZeroAccessReason(zeroPath), "Blocked: ")
  {
    var reason := ZeroAccessReason(zeroPath);
    assert reason[..9] == "Blocked: ";
  }

  lemma {:induction false} PathStageBlocks(paths: seq<string>, command: string, templates: seq<OpTemplate>,
                                          pathType: string, home: string, search: Search)
    requires PathStage(paths, command, templates, pathType, home, search).Some?
    ensures PathStage(paths, command, templates, pathType, home, search).value.Block?
    ensures PathStage(paths, command, templates, pathType, home, search).value.target == Truncate(command)
    ensures StartsWith(PathStage(paths, command, templates, pathType, home, search).value.reason, "Blocked: ")
  {
    if !PatternCheck(command, paths[0], templates, pathType, home, search).0 {
      PathStageBlocks(paths[1..], command, templates, pathType, home, search);
    } else {
      PatternCheckFirstMatch(command, paths[0], templates, pathType, home, search);
      var k :| 0 <= k < |templates|
               && PatternCheck(command, paths[0], templates, pathType, home, search).1
                  == OperationReason(templates[k].operation, pathType, paths[0]);
      assert OperationReason(templates[k].operation, pathType, paths[0])[..9] == "Blocked: ";
    }
  }

  // handle_bash as a whole

  /** The rules take precedence: once a rule fires, the decision is that
      rule's, whatever the path lists hold. */
  lemma RulesTakePrecedence(command: string, config: Config, other: Config, home: string, search: Search)
    requires command != []
    requires RuleStage(config.bashToolPatterns, command, search).Some?
    requires other.bashToolPatterns == config.bashToolPatterns
    ensures BashDecision(command, config, home, search) == RuleStage(config.bashToolPatterns, command, search).value
    ensures BashDecision(command, other, home, search) == BashDecision(command, config, home, search)
  {
  }

  /** A Bash command is allowed exactly when it is empty or no stage decides. */
  lemma BashAllowedIffNoStage(command: string, config: Config, home: string, search: Search)
    ensures BashDecision(command, config, home, search) == Allow <==>
              command == []
              || (RuleStage(config.bashToolPatterns, command, search) == None
                  && ZeroAccessStage(config.zeroAccessPaths, command, home, search) == None
                  && PathStage(config.readOnlyPaths, command, ReadOnlyBlocked, "read-only path", home, search) == None
                  && PathStage(config.noDeletePaths, command, NoDeleteBlocked, "no-delete path", home, search) == None)
  {
    if command != [] {
      var rules := RuleStage(config.bashToolPatterns, command, search);
      if rules.Some? {
        RuleStageFirst(config.bashToolPatterns, command, search);
      } else if ZeroAccessStage(config.zeroAccessPaths, command, home, search).Some? {
        ZeroAccessStageBlocks(config.zeroAccessPaths, command, home, search);
      } else if PathStage(config.readOnlyPaths, command, ReadOnlyBlocked, "read-only path", home, search).Some? {
        PathStageBlocks(config.readOnlyPaths, command, ReadOnlyBlocked, "read-only path", home, search);
      } else if PathStage(config.noDeletePaths, command, NoDeleteBlocked, "no-delete path", home, search).Some? {
        PathStageBlocks(config.noDeletePaths, command, NoDeleteBlocked, "no-delete path", home, search);
      }
    }
  }

  /** A Bash command is allowed exactly when it is empty, or no rule fires,
      it mentions no zero-access entry, and no read-only or no-delete
      path's template check fires. */
  lemma BashAllowedIff(command: string, config: Config, home: string, search: Search)
    ensures BashDecision(command, config, home, search) == Allow <==>
              command == []
              || ((forall k :: 0 <= k < |config.bashToolPatterns| ==> !RuleFires(config.bashToolPatterns[k], command, search))
                  && (forall k :: 0 <= k < |config.zeroAccessPaths| ==>
                        !MentionsZeroAccess(command, config.zeroAccessPaths[k], home, search))
                  && (forall k :: 0 <= k < |config.readOnlyPaths| ==>
                        !PatternCheck(command, config.readOnlyPaths[k], ReadOnlyBlocked, "read-only path", home, search).0)
                  && (forall k :: 0 <= k < |config.noDeletePaths| ==>
                        !PatternCheck(command, config.noDeletePaths[k], NoDeleteBlocked, "no-delete path", home, search).0))
  {
    BashAllowedIffNoStage(command, config, home, search);
    RuleStageNone(config.bashToolPatterns, command, search);
    ZeroAccessStageNone(config.zeroAccessPaths, command, home, search);
    PathStageNone(config.readOnlyPaths, command, ReadOnlyBlocked, "read-only path", home, search);
    PathStageNone(config.noDeletePaths, command, NoDeleteBlocked, "no-delete path", home, search);
  }

  /** Only a rule with `ask` set produces an Ask, with that rule's reason;
      every block reports the truncated command and a `Blocked: ` reason. */
  lemma BashDecisionShape(command: string, config: Config, home: string, search: Search)
    ensures BashDecision(command, config, home, search).Ask? ==>
              exists k :: 0 <= k < |config.bashToolPatterns| && RuleFires(config.bashToolPatterns[k], command, search)
                && config.bashToolPatterns[k].Ask()
                && BashDecision(command, config, home, search).reason == config.bashToolPatterns[k].Reason()
    ensures BashDecision(command, config, home, search).Block? ==>
              BashDecision(command, config, home, search).target == Truncate(command)
              && StartsWith(BashDecision(command, config, home, search).reason, "Blocked: ")
  {
    if command != [] {
      var rules := RuleStage(config.bashToolPatterns, command, search);
      if rules.Some? {
        RuleStageFirst(config.bashToolPatterns, command, search);
        var k :| 0 <= k < |config.bashToolPatterns| && RuleFires(config.bashToolPatterns[k], command, search)
                 && rules == Some(RuleOutcome(config.bashToolPatterns[k], command));
        var reason := "Blocked: " + config.bashToolPatterns[k].Reason();
        assert reason[..9] == "Blocked: ";
      } else if ZeroAccessStage(config.zeroAccessPaths, command, home, search).Some? {
        ZeroAccessStageBlocks(config.zeroAccessPaths, command, home, search);
      } else if PathStage(config.readOnlyPaths, command, ReadOnlyBlocked, "read-only path", home, search).Some? {
        PathStageBlocks(config.readOnlyPaths, command, ReadOnlyBlocked, "read-only path", home, search);
      } else if PathStage(config.noDeletePaths, command, NoDeleteBlocked, "no-delete path", home, search).Some? {
        PathStageBlocks(config.noDeletePaths, command, NoDeleteBlocked, "no-delete path", home, search);
      }
    }
  }

  /** A command that mentions a zero-access entry, and that no rule decided,
      is blocked, whatever operation it performs. */
  lemma ZeroAccessMentionBlocks(command: string, config: Config, zeroPath: string, home: string, search: Search)
    requires command != []
    requires RuleStage(config.bashToolPatterns, command, search) == None
    requires zeroPath in config.zeroAccessPaths
    requires MentionsZeroAccess(command, zeroPath, home, search)
    ensures BashDecision(command, config, home, search).Block?
  {
    ZeroAccessStageNone(config.zeroAccessPaths, command, home, search);
    var k :| 0 <= k < |config.zeroAccessPaths| && config.zeroAccessPaths[k] == zeroPath;
    ZeroAccessStageBlocks(config.zeroAccessPaths, command, home, search);
  }

  /** For an oracle that finds escaped literals as Python's `re` does, a
      literal zero-access entry is mentioned exactly when the command
      contains it, written as configured or with `~` expanded. */
  lemma ZeroAccessLiteralIsSubstring(command: string, zeroPath: string, home: string, search: Search)
    requires FindsLiterals(search)
    requires !IsGlobPattern(zeroPath)
    ensures MentionsZeroAccess(command, zeroPath, home, search) <==>
              Contains(command, Expanded(zeroPath, home)) || Contains(command, zeroPath)
  {
    assert search(ReEscape(Expanded(zeroPath, home)), command, false) == Some(Contains(command, Expanded(zeroPath, home)));
    assert search(ReEscape(zeroPath), command, false) == Some(Contains(command, zeroPath));
  }

  /** For an oracle that reads the anchor as `AnchoredKeyword` does on
      ASCII text, an anchored rule for an ASCII keyword fires on an ASCII
      command exactly when the keyword (in any letter case) starts at a
      command position. */
  lemma AnchoredRuleFiresIff(rule: Rule, keyword: string, command: string, search: Search)
    requires AnchorsKeywords(search)
    requires IsAscii(keyword) && IsAscii(command)
    requires rule.Pattern() == ReEscape(keyword) && !rule.MatchAnywhere()
    ensures RuleFires(rule, command, search) <==> AnchoredKeyword(command, keyword, true)
  {
    assert EffectivePattern(rule) == AnchoredPattern(keyword);
    assert search(AnchoredPattern(keyword), command, true) == Some(AnchoredKeyword(command, keyword, true));
  }

  /** A `match_anywhere` rule is searched without the anchor. */
  lemma MatchAnywhereSkipsAnchor(rule: Rule, command: string, search: Search)
    requires rule.MatchAnywhere()
    ensures RuleFires(rule, command, search) <==> search(rule.Pattern(), command, true) == Some(true)
  {
  }

  /** Whatever a no-delete entry blocks, the same entry as a read-only path
      blocks too: deletion is one of the read-only operations. */
  lemma ReadOnlyCoversNoDelete(paths: seq<string>, command: string, home: string, search: Search)
    requires PathStage(paths, command, NoDeleteBlocked, "no-delete path", home, search).Some?
    ensures PathStage(paths, command, ReadOnlyBlocked, "read-only path", home, search).Some?
  {
    PathStageNone(paths, command, NoDeleteBlocked, "no-delete path", home, search);
    PathStageNone(paths, command, ReadOnlyBlocked, "read-only path", home, search);
    var k :| 0 <= k < |paths| && PatternCheck(command, paths[k], NoDeleteBlocked, "no-delete path", home, search).0;
    NoDeleteWithinReadOnly();
    MoreTemplatesBlockMore(command, paths[k], NoDeleteBlocked, ReadOnlyBlocked, "no-delete path", "read-only path", home, search);
  }

  // The file tools

  /** No entry decides exactly when the file falls under none of them, and
      the wording of the reason plays no part in that. */
  lemma {:induction false} FileStageNone(paths: seq<string>, filePath: string, home: string, prefix: string, suffix: string)
    ensures FileStage(paths, filePath, home, prefix, suffix) == None <==>
              forall k :: 0 <= k < |paths| ==> !MatchPath(filePath, paths[k], home)
  {
    if paths != [] {
      FileStageNone(paths[1..], filePath, home, prefix, suffix);
      NoneShift(paths, p => MatchPath(filePath, p, home));
    }
  }

  /** When an entry decides, it is the first one the file falls under,
      named in the reason, and the block reports the truncated file path. */
  lemma {:induction false} FileStageFirst(paths: seq<string>, filePath: string, home: string, prefix: string, suffix: string)
    requires FileStage(paths, filePath, home, prefix, suffix).Some?
    ensures exists k :: 0 <= k < |paths| && MatchPath(filePath, paths[k], home)
              && (forall m :: 0 <= m < k ==> !MatchPath(filePath, paths[m], home))
              && FileStage(paths, filePath, home, prefix, suffix) == Some(BlockWith(prefix + paths[k] + suffix, filePath))
  {
    if !MatchPath(filePath, paths[0], home) {
      FileStageFirst(paths[1..], filePath, home, prefix, suffix);
      var k :| 0 <= k < |paths[1..]| && MatchPath(filePath, paths[1..][k], home)
               && (forall m :: 0 <= m < k ==> !MatchPath(filePath, paths[1..][m], home))
               && FileStage(paths[1..], filePath, home, prefix, suffix)
                  == Some(BlockWith(prefix + paths[1..][k] + suffix, filePath));
      FirstShift(paths, k, p => MatchPath(filePath, p, home));
    }
  }

  /** A file under one of the entries makes the stage block. */
  lemma FileStageHit(paths: seq<string>, filePath: string, entry: string, home: string, prefix: string, suffix: string)
    requires entry in paths && MatchPath(filePath, entry, home)
    ensures FileStage(paths, filePath, home, prefix, suffix).Some?
    ensures FileStage(paths, filePath, home, prefix, suffix).value.Block?
  {
    var k :| 0 <= k < |paths| && paths[k] == entry;
    FileStageNone(paths, filePath, home, prefix, suffix);
    FileStageFirst(paths, filePath, home, prefix, suffix);
  }

  /** Zero-access is absolute for the file tools: a file under a zero-access
      entry is blocked for Edit, Write, Read and Grep alike. */
  lemma ZeroAccessBlocksEveryFileTool(filePath: string, config: Config, zeroPath: string, home: string)
    requires filePath != []
    requires zeroPath in config.zeroAccessPaths && MatchPath(filePath, zeroPath, home)
    ensures EditDecision(filePath, config, home).Block?
    ensures WriteDecision(filePath, config, home).Block?
    ensures ReadDecision(filePath, config, home).Block?
    ensures GrepDecision(filePath, config, home).Block?
  {
    var z := config.zeroAccessPaths;
    FileStageHit(z, filePath, zeroPath, home, "Blocked edit to zero-access path ", NoOperations);
    FileStageHit(z, filePath, zeroPath, home, "Blocked write to zero-access path ", NoOperations);
    FileStageHit(z, filePath, zeroPath, home, "Blocked read of zero-access path ", NoOperations);
    FileStageHit(z, filePath, zeroPath, home, "Blocked grep in zero-access path ", NoOperations);
  }

  /** Read-only paths stay readable and searchable: a file under a read-only
      entry and under no zero-access entry is blocked for Edit and Write
      but allowed for Read and Grep. */
  lemma ReadOnlyIsReadable(filePath: string, config: Config, readOnly: string, home: string)
    requires filePath != []
    requires forall k :: 0 <= k < |config.zeroAccessPaths| ==> !MatchPath(filePath, config.zeroAccessPaths[k], home)
    requires readOnly in config.readOnlyPaths && MatchPath(filePath, readOnly, home)
    ensures EditDecision(filePath, config, home).Block?
    ensures WriteDecision(filePath, config, home).Block?
    ensures ReadDecision(filePath, config, home) == Allow
    ensures GrepDecision(filePath, config, home) == Allow
  {
    var z := config.zeroAccessPaths;
    var r := config.readOnlyPaths;
    FileStageNone(z, filePath, home, "Blocked edit to zero-access path ", NoOperations);
    FileStageNone(z, filePath, home, "Blocked write to zero-access path ", NoOperations);
    FileStageNone(z, filePath, home, "Blocked read of zero-access path ", NoOperations);
    FileStageNone(z, filePath, home, "Blocked grep in zero-access path ", NoOperations);
    FileStageHit(r, filePath, readOnly, home, "Blocked edit to read-only path ", "");
    FileStageHit(r, filePath, readOnly, home, "Blocked write to read-only path ", "");
  }

  /** Edit and Write protect exactly the same files, and Read and Grep
      exactly the same paths: only the wording of the reason differs. */
  lemma FileToolsAgree(filePath: string, config: Config, home: string)
    ensures EditDecision(filePath, config, home).Block? <==> WriteDecision(filePath, config, home).Block?
    ensures ReadDecision(filePath, config, home).Block? <==> GrepDecision(filePath, config, home).Block?
    ensures ReadDecision(filePath, config, home).Block? ==> EditDecision(filePath, config, home).Block?
  {
    var z := config.zeroAccessPaths;
    var r := config.readOnlyPaths;
    if filePath != [] {
      FileStageNone(z, filePath, home, "Blocked edit to zero-access path ", NoOperations);
      FileStageNone(z, filePath, home, "Blocked write to zero-access path ", NoOperations);
      FileStageNone(z, filePath, home, "Blocked read of zero-access path ", NoOperations);
      FileStageNone(z, filePath, home, "Blocked grep in zero-access path ", NoOperations);
      FileStageNone(r, filePath, home, "Blocked edit to read-only path ", "");
      FileStageNone(r, filePath, home, "Blocked write to read-only path ", "");
      if FileStage(z, filePath, home, "Blocked edit to zero-access path ", NoOperations).Some? {
        FileStageFirst(z, filePath, home, "Blocked edit to zero-access path ", NoOperations);
        FileStageFirst(z, filePath, home, "Blocked write to zero-access path ", NoOperations);
        FileStageFirst(z, filePath, home, "Blocked read of zero-access path ", NoOperations);
        FileStageFirst(z, filePath, home, "Blocked grep in zero-access path ", NoOperations);
      } else if FileStage(r, filePath, home, "Blocked edit to read-only path ", "").Some? {
        FileStageFirst(r, filePath, home, "Blocked edit to read-only path ", "");
        FileStageFirst(r, filePath, home, "Blocked write to read-only path ", "");
      }
    }
  }

  /** An empty command or path, and any tool without a handler, is allowed. */
  lemma EmptyInputAllowed(toolName: string, toolInput: ToolInput, config: Config, home: string, search: Search)
    requires toolName !in HandledTools
             || (toolName == "Bash" && Get(toolInput, "command") == [])
             || (toolName in {"Edit", "Write", "Read"} && Get(toolInput, "file_path") == [])
             || (toolName == "Grep" && Get(toolInput, "path") == [])
    ensures ToolDecision(toolName, toolInput, config, home, search) == Allow
  {
  }
}
