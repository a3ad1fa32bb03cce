/** The per-tool decision procedures (damage_control.py:286-434) and the
    dispatch by tool name (damage_control.py:454-482). Each handler returns
    a `Decision` where the source exits the process. */
module Handlers {
  import opened Wrappers
  import opened Strings
  import opened Paths
  import opened Glob
  import opened Regex
  import opened Templates
  import opened PathCheck
  import opened PathMatch
  import opened Decisions
  import opened Config

  /** The `tool_input` object, reduced to its string-valued fields. */
  type ToolInput = map<string, string>

  /** `tool_input.get(key, "")`. */
  function Get(input: ToolInput, key: string): string
  {
    if key in input then input[key] else ""
  }

  /** The first of two stage outcomes that decides anything. */
  function Then(first: Option<Decision>, second: Option<Decision>): Option<Decision>
  {
    if first.Some? then first else second
  }

  // Bash, stage 1: the rules

  /** The regex a rule is searched with: the command-position anchor in
      front of its pattern, unless the rule matches anywhere. */
  function EffectivePattern(rule: Rule): string
  {
    if rule.MatchAnywhere() then rule.Pattern() else CmdPositionPrefix + rule.Pattern()
  }

  /** The rule's case-insensitive search succeeds (a rule whose regex raises
      `re.error` does not fire). */
  predicate RuleFires(rule: Rule, command: string, search: Search)
  {
    search(EffectivePattern(rule), command, true) == Some(true)
  }

  /** What a firing rule decides: ask with its reason, or block. */
  function RuleOutcome(rule: Rule, command: string): Decision
  {
    if rule.Ask() then Ask(rule.Reason()) else BlockWith("Blocked: " + rule.Reason(), command)
  }

  /** The first rule that fires decides. */
  function RuleStage(rules: seq<Rule>, command: string, search: Search): Option<Decision>
  {
    if rules == [] then None
    else if RuleFires(rules[0], command, search) then Some(RuleOutcome(rules[0], command))
    else RuleStage(rules[1..], command, search)
  }

  // Bash, stage 2: zero-access paths

  /** A zero-access entry is mentioned anywhere in the command: its glob
      regex, case-insensitively, or its escaped expanded or escaped written
      form, case-sensitively. */
  predicate MentionsZeroAccess(command: string, zeroPath: string, home: string, search: Search)
  {
    if IsGlobPattern(zeroPath) then search(GlobRegex(zeroPath), command, true) == Some(true)
    else
      search(ReEscape(Expanded(zeroPath, home)), command, false) == Some(true)
      || search(ReEscape(zeroPath), command, false) == Some(true)
  }

  function ZeroAccessReason(zeroPath: string): string
  {
    if IsGlobPattern(zeroPath) then "Blocked: zero-access pattern " + zeroPath + " (no operations allowed)"
    else "Blocked: zero-access path " + zeroPath + " (no operations allowed)"
  }

  /** The first zero-access entry the command mentions blocks it. */
  function ZeroAccessStage(zeroPaths: seq<string>, command: string, home: string, search: Search): Option<Decision>
  {
    if zeroPaths == [] then None
    else if MentionsZeroAccess(command, zeroPaths[0], home, search) then
      Some(BlockWith(ZeroAccessReason(zeroPaths[0]), command))
    else ZeroAccessStage(zeroPaths[1..], command, home, search)
  }

  // Bash, stages 3 and 4: read-only and no-delete paths

  /** The first path whose template check fires blocks the command with
      that check's reason. */
  function PathStage(paths: seq<string>, command: string, templates: seq<OpTemplate>, pathType: string,
                     home: string, search: Search): Option<Decision>
  {
    if paths == [] then None
    else if PatternCheck(command, paths[0], templates, pathType, home, search).0 then
      Some(BlockWith(PatternCheck(command, paths[0], templates, pathType, home, search).1, command))
    else PathStage(paths[1..], command, templates, pathType, home, search)
  }

  /** The specification of `handle_bash`: an empty command is allowed;
      otherwise rules, zero-access, read-only and no-delete paths are
      consulted in that order, the first stage that decides wins, and a
      command nothing objects to is allowed. */
  function BashDecision(command: string, config: Config, home: string, search: Search): Decision
  {
    if command == [] then Allow
    else
      Then(RuleStage(config.bashToolPatterns, command, search),
        Then(ZeroAccessStage(config.zeroAccessPaths, command, home, search),
          Then(PathStage(config.readOnlyPaths, command, ReadOnlyBlocked, "read-only path", home, search),
            PathStage(config.noDeletePaths, command, NoDeleteBlocked, "no-delete path", home, search)))).GetOr(Allow)
  }

  /** `handle_bash`: four loops, each ending the call at its first hit. */
  method HandleBash(toolInput: ToolInput, config: Config, home: string, search: Search) returns (d: Decision)
    ensures d == BashDecision(Get(toolInput, "command"), config, home, search)
  {
    var command := Get(toolInput, "command");
    if command == [] {
      return Allow;
    }

    var rules := config.bashToolPatterns;
    for i := 0 to |rules|
      invariant RuleStage(rules, command, search) == RuleStage(rules[i..], command, search)
    {
      var item := rules[i];
      var pattern := item.Pattern();
      var reason := item.Reason();
      var shouldAsk := item.Ask();
      if !item.MatchAnywhere() {
        pattern := CmdPositionPrefix + pattern;
      }
      var found := search(pattern, command, true);
      if found == Some(true) {
        if shouldAsk {
          return Ask(reason);
        } else {
          return BlockWith("Blocked: " + reason, command);
        }
      }
      assert rules[i..][1..] == rules[i + 1..];
    }

    var zeroPaths := config.zeroAccessPaths;
    for i := 0 to |zeroPaths|
      invariant ZeroAccessStage(zeroPaths, command, home, search) == ZeroAccessStage(zeroPaths[i..], command, home, search)
    {
      var zeroPath := zeroPaths[i];
      if IsGlobPattern(zeroPath) {
        var globRegex := GlobToRegex(zeroPath);
        var found := search(globRegex, command, true);
        if found == Some(true) {
          return BlockWith("Blocked: zero-access pattern " + zeroPath + " (no operations allowed)", command);
        }
      } else {
        var expanded := Expanded(zeroPath, home);
        var escapedExpanded := ReEscape(expanded);
        var escapedOriginal := ReEscape(zeroPath);
        var mentioned := search(escapedExpanded, command, false) == Some(true);
        if !mentioned {
          mentioned := search(escapedOriginal, command, false) == Some(true);
        }
        if mentioned {
          return BlockWith("Blocked: zero-access path " + zeroPath + " (no operations allowed)", command);
        }
      }
      assert zeroPaths[i..][1..] == zeroPaths[i + 1..];
    }

    var readOnlyPaths := config.readOnlyPaths;
    for i := 0 to |readOnlyPaths|
      invariant PathStage(readOnlyPaths, command, ReadOnlyBlocked, "read-only path", home, search)
                == PathStage(readOnlyPaths[i..], command, ReadOnlyBlocked, "read-only path", home, search)
    {
      var blocked, reason := CheckPathPatterns(command, readOnlyPaths[i], ReadOnlyBlocked, "read-only path", home, search);
      if blocked {
        return BlockWith(reason, command);
      }
      assert readOnlyPaths[i..][1..] == readOnlyPaths[i + 1..];
    }

    var noDeletePaths := config.noDeletePaths;
    for i := 0 to |noDeletePaths|
      invariant PathStage(noDeletePaths, command, NoDeleteBlocked, "no-delete path", home, search)
                == PathStage(noDeletePaths[i..], command, NoDeleteBlocked, "no-delete path", home, search)
    {
      var blocked, reason := CheckPathPatterns(command, noDeletePaths[i], NoDeleteBlocked, "no-delete path", home, search);
      if blocked {
        return BlockWith(reason, command);
      }
      assert noDeletePaths[i..][1..] == noDeletePaths[i + 1..];
    }

    return Allow;
  }

  // The file tools

  /** The first configured path the file falls under blocks the call, with
      the path named between `prefix` and `suffix`. */
  function FileStage(paths: seq<string>, filePath: string, home: string, prefix: string, suffix: string): Option<Decision>
  {
    if paths == [] then None
    else if MatchPath(filePath, paths[0], home) then Some(BlockWith(prefix + paths[0] + suffix, filePath))
    else FileStage(paths[1..], filePath, home, prefix, suffix)
  }

  /** One loop of a file-tool handler: block at the first matching path. */
  method FirstMatchingPath(filePath: string, paths: seq<string>, home: string, prefix: string, suffix: string)
    returns (d: Option<Decision>)
    ensures d == FileStage(paths, filePath, home, prefix, suffix)
  {
    for i := 0 to |paths|
      invariant FileStage(paths, filePath, home, prefix, suffix) == FileStage(paths[i..], filePath, home, prefix, suffix)
    {
      if MatchPath(filePath, paths[i], home) {
        return Some(BlockWith(prefix + paths[i] + suffix, filePath));
      }
      assert paths[i..][1..] == paths[i + 1..];
    }
    return None;
  }

  const NoOperations: string := " (no operations allowed)"

  /** `handle_edit`: zero-access paths, then read-only paths. */
  function EditDecision(filePath: string, config: Config, home: string): Decision
  {
    if filePath == [] then Allow
    else Then(FileStage(config.zeroAccessPaths, filePath, home, "Blocked edit to zero-access path ", NoOperations),
              FileStage(config.readOnlyPaths, filePath, home, "Blocked edit to read-only path ", "")).GetOr(Allow)
  }

  /** `handle_write`: zero-access paths, then read-only paths. */
  function WriteDecision(filePath: string, config: Config, home: string): Decision
  {
    if filePath == [] then Allow
    else Then(FileStage(config.zeroAccessPaths, filePath, home, "Blocked write to zero-access path ", NoOperations),
              FileStage(config.readOnlyPaths, filePath, home, "Blocked write to read-only path ", "")).GetOr(Allow)
  }

  /** `handle_read`: zero-access paths only. */
  function ReadDecision(filePath: string, config: Config, home: string): Decision
  {
    if filePath == [] then Allow
    else FileStage(config.zeroAccessPaths, filePath, home, "Blocked read of zero-access path ", NoOperations).GetOr(Allow)
  }

  /** `handle_grep`: zero-access paths only. */
  function GrepDecision(searchPath: string, config: Config, home: string): Decision
  {
    if searchPath == [] then Allow
    else FileStage(config.zeroAccessPaths, searchPath, home, "Blocked grep in zero-access path ", NoOperations).GetOr(Allow)
  }

  method HandleEdit(toolInput: ToolInput, config: Config, home: string) returns (d: Decision)
    ensures d == EditDecision(Get(toolInput, "file_path"), config, home)
  {
    var filePath := Get(toolInput, "file_path");
    if filePath == [] {
      return Allow;
    }
    var zero := FirstMatchingPath(filePath, config.zeroAccessPaths, home, "Blocked edit to zero-access path ", NoOperations);
    if zero.Some? {
      return zero.value;
    }
    var readOnly := FirstMatchingPath(filePath, config.readOnlyPaths, home, "Blocked edit to read-only path ", "");
    return readOnly.GetOr(Allow);
  }

  method HandleWrite(toolInput: ToolInput, config: Config, home: string) returns (d: Decision)
    ensures d == WriteDecision(Get(toolInput, "file_path"), config, home)
  {
    var filePath := Get(toolInput, "file_path");
    if filePath == [] {
      return Allow;
    }
    var zero := FirstMatchingPath(filePath, config.zeroAccessPaths, home, "Blocked write to zero-access path ", NoOperations);
    if zero.Some? {
      return zero.value;
    }
    var readOnly := FirstMatchingPath(filePath, config.readOnlyPaths, home, "Blocked write to read-only path ", "");
    return readOnly.GetOr(Allow);
  }

  method HandleRead(toolInput: ToolInput, config: Config, home: string) returns (d: Decision)
    ensures d == ReadDecision(Get(toolInput, "file_path"), config, home)
  {
    var filePath := Get(toolInput, "file_path");
    if filePath == [] {
      return Allow;
    }
    var zero := FirstMatchingPath(filePath, config.zeroAccessPaths, home, "Blocked read of zero-access path ", NoOperations);
    return zero.GetOr(Allow);
  }

  method HandleGrep(toolInput: ToolInput, config: Config, home: string) returns (d: Decision)
    ensures d == GrepDecision(Get(toolInput, "path"), config, home)
  {
    var searchPath := Get(toolInput, "path");
    if searchPath == [] {
      return Allow;
    }
    var zero := FirstMatchingPath(searchPath, config.zeroAccessPaths, home, "Blocked grep in zero-access path ", NoOperations);
    return zero.GetOr(Allow);
  }

  // Dispatch

  /** The tools the guard has a handler for. */
  const HandledTools: set<string> := {"Bash", "Edit", "Write", "Read", "Grep"}

  /** The decision for one tool call; a tool without a handler is allowed. */
  function ToolDecision(toolName: string, toolInput: ToolInput, config: Config, home: string, search: Search): (d: Decision)
    ensures toolName !in HandledTools ==> d == Allow
  {
    match toolName
    case "Bash" => BashDecision(Get(toolInput, "command"), config, home, search)
    case "Edit" => EditDecision(Get(toolInput, "file_path"), config, home)
    case "Write" => WriteDecision(Get(toolInput, "file_path"), config, home)
    case "Read" => ReadDecision(Get(toolInput, "file_path"), config, home)
    case "Grep" => GrepDecision(Get(toolInput, "path"), config, home)
    case _ => Allow
  }

  /** `HANDLERS.get(tool_name)` and the call. */
  method HandleToolCall(toolName: string, toolInput: ToolInput, config: Config, home: string, search: Search)
    returns (d: Decision)
    ensures d == ToolDecision(toolName, toolInput, config, home, search)
  {
    if toolName == "Bash" {
      d := HandleBash(toolInput, config, home, search);
    } else if toolName == "Edit" {
      d := HandleEdit(toolInput, config, home);
    } else if toolName == "Write" {
      d := HandleWrite(toolInput, config, home);
    } else if toolName == "Read" {
      d := HandleRead(toolInput, config, home);
    } else if toolName == "Grep" {
      d := HandleGrep(toolInput, config, home);
    } else {
      d := Allow;
    }
  }
}
