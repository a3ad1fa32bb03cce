# Damage control: a verified model of the guard's rule matching

The damage-control hook is a guard that runs before each tool call of a coding assistant.
It reads the tool name and its input, then allows the call, blocks it (exit status 2 and a
`SECURITY:` message), or asks the user to confirm. This project models the guard's decision
core in Dafny:

- **Glob detection and translation** (`Glob`): `is_glob_pattern`, `glob_to_regex`, and the
  `fnmatch` matching that `match_path` relies on.
- **Path matching** (`Paths`, `PathMatch`): `match_path`, with `pathlib`'s parsing and
  `expanduser`, and `os.path.normpath`, modelled concretely.
- **The operation templates** (`Templates`): the seven tables of regex templates with a
  `{path}` slot, and the read-only and no-delete sets built from them.
- **`check_path_patterns`** (`PathCheck`): a method with both of its loops, proved against a
  first-match specification.
- **The command-position anchor** (`Regex`): `_CMD_POSITION_PREFIX` and `re.escape`.
- **The handlers** (`Handlers`): `handle_bash`, `handle_edit`, `handle_write`,
  `handle_read`, `handle_grep`, and the `HANDLERS` dispatch. Each is a method whose loops are
  proved against a decision function. Where the source calls `sys.exit`, the model returns a
  `Decision` (`Decisions`); a block carries `_block`'s truncated context.
- **The merge of `load_patterns_dir`** (`Config`): the listing without duplicates, and the
  per-key concatenation of the lists of every document.

Python's regular-expression engine is not modelled. `re.search` is a parameter
`search(pattern, text, ignoreCase)` that returns `Some(found)`, or `None` when the pattern
raises `re.error`. The decisions are proved for every such oracle. Two properties of a
search are stated as predicates on the oracle, and are hypotheses of the lemmas that need
them. `FindsLiterals`: an escaped literal, searched case-sensitively, is found exactly where
it occurs. `AnchorsKeywords`: on ASCII keywords and commands, the anchored pattern finds
what `AnchoredKeyword` describes. The second one says nothing about non-ASCII text, where
`re.IGNORECASE` folds more letters than the model's ASCII lower-casing (the Kelvin sign
matches `k`). The anchor itself is modelled
concretely, and its behaviour is proved on the examples the source comments name. The value
of `$HOME` is a parameter `home`.

The literal branch of `check_path_patterns` searches case-sensitively: the call at
damage_control.py:257-259 passes no `re.IGNORECASE` flag. Only the glob branch ignores case.
A description of the guard as matching literal paths case-insensitively disagrees with the
code; the model follows the code (`PathCheck.TemplateFires`).

## Model

| member | source | states |
|---|---|---|
| Glob.GlobPatternIffGlobChar | home/dot_claude/exact_hooks/damage-control/damage_control.py:37-39 | a pattern is a glob exactly when some character of it is `*`, `?` or `[` |
| Glob.GlobPatternAppend | home/dot_claude/exact_hooks/damage-control/damage_control.py:37-39 | a concatenation is a glob exactly when one of its halves is |
| Glob.GlobToRegex | home/dot_claude/exact_hooks/damage-control/damage_control.py:42-54 | the character loop builds exactly the concatenation of the per-character fragments: `*` and `?` stop at whitespace and `/`, the special characters are backslash-escaped, the rest is copied |
| Glob.GlobRegexAppend | home/dot_claude/exact_hooks/damage-control/damage_control.py:42-54 | the translation distributes over concatenation, character by character |
| Glob.GlobRegexRoundTrip | home/dot_claude/exact_hooks/damage-control/damage_control.py:42-54 | the translation loses nothing: reading the regex back yields the original glob |
| Glob.StarMatchesAll | home/dot_claude/exact_hooks/damage-control/damage_control.py:69-73 | under `fnmatch`, `*` matches every name |
| Glob.LiteralGlobMatch | home/dot_claude/exact_hooks/damage-control/damage_control.py:69-73 | under `fnmatch`, a pattern without glob characters matches exactly itself |
| Glob.StarSuffixMatch | home/dot_claude/exact_hooks/damage-control/damage_control.py:69-73 | `*` followed by a literal suffix matches exactly the names that end with it |
| Paths.ParsePath | home/dot_claude/exact_hooks/damage-control/damage_control.py:59-61 | `Path(s)` yields a well-formed path whose parts are non-empty, not `.`, and free of `/` |
| Paths.ExpandUser | home/dot_claude/exact_hooks/damage-control/damage_control.py:59-61 | `expanduser` leaves every path unchanged unless it is relative and its first part is `~`; that part is replaced by the root and parts of the home directory |
| Paths.ExpandTilde | home/dot_claude/exact_hooks/damage-control/damage_control.py:59 | for a home directory in normal form, `~/w` expands to the home directory, `/` and `w` (`~/.ssh` becomes `/home/u/.ssh`) |
| Paths.NormPath | home/dot_claude/exact_hooks/damage-control/damage_control.py:60 | `os.path.normpath` never yields the empty string, and maps the empty string to `.` |
| Paths.NormPathCollapses | home/dot_claude/exact_hooks/damage-control/damage_control.py:60 | apart from `.` and a bare root, a normalised path is its kept leading slashes followed by components that are never empty and never `.`, and never `..` for an absolute path |
| Paths.NormalAbsoluteFixed | home/dot_claude/exact_hooks/damage-control/damage_control.py:60-61 | an absolute path already in normal form is left unchanged by `normpath` and by `~`-expansion |
| Paths.ExpandedShape | home/dot_claude/exact_hooks/damage-control/damage_control.py:59-61 | the expanded string form is never empty, and ends in `/` only for a bare root |
| Paths.BasenameOfNormalized | home/dot_claude/exact_hooks/damage-control/damage_control.py:60-64 | the name that `match_path` compares with a glob, for a file `dir/name`, is `name` |
| Paths.AbsoluteStaysAbsolute | home/dot_claude/exact_hooks/damage-control/damage_control.py:60-61 | an absolute file path stays absolute through normalisation and expansion |
| Paths.RelativeStaysRelative | home/dot_claude/exact_hooks/damage-control/damage_control.py:59 | a relative pattern without `~` stays relative through expansion |
| PathMatch.LiteralMatchIsPrefix | home/dot_claude/exact_hooks/damage-control/damage_control.py:74-76 | a pattern without glob characters matches exactly the files whose normalised, expanded path starts with the expanded pattern; the fallback comparison with the pattern stripped of trailing `/` adds no match |
| PathMatch.TrailingSlashPattern | home/dot_claude/exact_hooks/damage-control/damage_control.py:59-76 | a literal pattern `/<dir>/` (e.g. `/etc/`) matches exactly the files whose normalised path starts with the string `/<dir>`, so `/etcd` too |
| PathMatch.GlobMatchesNameInAnyDirectory | home/dot_claude/exact_hooks/damage-control/damage_control.py:63-70 | a glob matches a file in any directory whose lower-cased name matches the lower-cased pattern |
| PathMatch.ExtensionPatternIgnoresCase | home/dot_claude/exact_hooks/damage-control/damage_control.py:63-70 | `*` plus a literal extension matches every file whose name ends with that extension in any letter case |
| PathMatch.TildePatternCoversHome | home/dot_claude/exact_hooks/damage-control/damage_control.py:57-76 | a literal `~/w` entry matches `w` under the home directory and every file directly inside it |
| PathMatch.DoubleStarDirPattern | home/dot_claude/exact_hooks/damage-control/damage_control.py:63-73 | through the whole-path fallback, the glob `**/d/*` matches an absolute path in normal form naming a file directly inside a directory `d` at any depth (`/project/secrets/db.yaml` under `**/secrets/*`) |
| Glob.DoubleStarDir | home/dot_claude/exact_hooks/damage-control/damage_control.py:73 | under `fnmatch`, `**/d/*` matches every string that contains `/d/`, since `*` also matches `/` |
| PathMatch.RelativePatternMissesAbsolutePath | home/dot_claude/exact_hooks/damage-control/damage_control.py:74-76 | a relative literal pattern never matches an absolute file path |
| Templates.TablesHaveSlotAtEnd | home/dot_claude/exact_hooks/damage-control/damage_control.py:83-121 | every template of every table ends in its single `{path}` slot, after a non-empty command prefix |
| Templates.FillSlot | home/dot_claude/exact_hooks/damage-control/damage_control.py:241 | filling the slot of such a template appends the filler to the command prefix |
| Templates.NoDeleteWithinReadOnly | home/dot_claude/exact_hooks/damage-control/damage_control.py:123-133 | the read-only set has 19 templates, and the no-delete set is exactly its delete group, at positions 10 to 13 |
| PathCheck.CheckPathPatterns | home/dot_claude/exact_hooks/damage-control/damage_control.py:233-264 | both loops return the verdict and reason of the first template that fires, or `(False, "")` |
| PathCheck.PatternCheckNoMatch | home/dot_claude/exact_hooks/damage-control/damage_control.py:233-264 | the check reports nothing exactly when no template fires, and then its reason is empty |
| PathCheck.PatternCheckFirstMatch | home/dot_claude/exact_hooks/damage-control/damage_control.py:239-260 | a reported block names the operation of the first template that fires |
| PathCheck.ErringTemplateNeverFires | home/dot_claude/exact_hooks/damage-control/damage_control.py:239-262 | a template whose search raises `re.error` does not fire |
| PathCheck.SkipSilentTemplate | home/dot_claude/exact_hooks/damage-control/damage_control.py:239-262 | removing a template that does not fire leaves the result unchanged |
| PathCheck.MoreTemplatesBlockMore | home/dot_claude/exact_hooks/damage-control/damage_control.py:233-264 | a template list that contains another blocks whatever the smaller one blocks |
| PathCheck.TemplateRegexes | home/dot_claude/exact_hooks/damage-control/damage_control.py:238-255 | for the tables' templates, the glob search is the command prefix followed by the translated glob, and the literal searches put the escaped path right after the prefix |
| Regex.EscapeRoundTrip | home/dot_claude/exact_hooks/damage-control/damage_control.py:250-251 | escaping loses nothing: the literal can be read back from its escaped form |
| Regex.AtCommandPositionIff | home/dot_claude/exact_hooks/damage-control/damage_control.py:278 | a command position is the start, or some index reached through whitespace only from a semicolon, pipe, ampersand or opening parenthesis |
| Regex.NoSeparatorOnlyStart | home/dot_claude/exact_hooks/damage-control/damage_control.py:278 | without any separator in the command, an anchored keyword is found only at the start |
| Regex.KeywordAfterSeparator | home/dot_claude/exact_hooks/damage-control/damage_control.py:278 | a keyword right after a separator and whitespace is found |
| Regex.AnchorAfterSemicolon | home/dot_claude/exact_hooks/damage-control/damage_control.py:271-278 | a keyword after `;` is found, with or without a space |
| Regex.AnchorAfterPipe | home/dot_claude/exact_hooks/damage-control/damage_control.py:271-278 | a keyword right after a pipe is found |
| Regex.AnchorAfterAnd | home/dot_claude/exact_hooks/damage-control/damage_control.py:271-278 | a keyword after `&&` is found |
| Regex.AnchorAfterOr | home/dot_claude/exact_hooks/damage-control/damage_control.py:271-278 | a keyword right after a double pipe is found |
| Regex.AnchorAfterParenthesis | home/dot_claude/exact_hooks/damage-control/damage_control.py:271-278 | a keyword after the `(` of a command substitution is found |
| Regex.AnchorRejectsArguments | home/dot_claude/exact_hooks/damage-control/damage_control.py:271-278 | a keyword after a plain space, inside quotes without a separator, or after `=` is not found |
| Regex.AnchorIsNotWordBoundary | home/dot_claude/exact_hooks/damage-control/damage_control.py:278 | the anchor constrains the start only: `eval` is found at the start of `evaluate` |
| Regex.AnchorIgnoresQuotes | home/dot_claude/exact_hooks/damage-control/damage_control.py:271-278 | a separator inside a quoted argument still opens a command position |
| Decisions.Truncate | home/dot_claude/exact_hooks/damage-control/damage_control.py:444 | a context of at most 100 characters is kept whole; a longer one becomes its first 100 characters followed by `...` |
| Decisions.BlockWith | home/dot_claude/exact_hooks/damage-control/damage_control.py:442-447 | `_block` yields a block with the given reason and the truncated context |
| Decisions.ExitCode | home/dot_claude/exact_hooks/damage-control/damage_control.py:442-447 | status 2 is used exactly for blocks, status 0 otherwise |
| Decisions.StderrLines | home/dot_claude/exact_hooks/damage-control/damage_control.py:445-446 | a block writes `SECURITY: ` followed by its reason, then `Target: ` followed by its truncated context, to stderr; other decisions write nothing |
| Decisions.TruncateIdempotent | home/dot_claude/exact_hooks/damage-control/damage_control.py:444 | truncating a truncated context changes nothing |
| Config.DedupProperties | home/dot_claude/exact_hooks/damage-control/damage_control.py:193-199 | the listing keeps every file, adds none, and has no file twice |
| Config.DedupKeepsPrefix | home/dot_claude/exact_hooks/damage-control/damage_control.py:195-199 | the `*.yaml` files keep their order ahead of the `*.yml` files |
| Config.DedupOfDistinct | home/dot_claude/exact_hooks/damage-control/damage_control.py:193-199 | a listing without repetitions is left as it is |
| Config.ListPatternFiles | home/dot_claude/exact_hooks/damage-control/damage_control.py:193-199 | the listing loop with its `seen` set yields the files without duplicates, each at its first occurrence |
| Config.CollectAppend | home/dot_claude/exact_hooks/damage-control/damage_control.py:201-207 | the merged list of a key over two groups of documents is the first group's list followed by the second's |
| Config.NonListIgnored | home/dot_claude/exact_hooks/damage-control/damage_control.py:205-207 | a document without a list under a key leaves that key's merged list unchanged |
| Config.MergeOne | home/dot_claude/exact_hooks/damage-control/damage_control.py:201-207 | one more document appends its list for each key |
| Config.MergeInto | home/dot_claude/exact_hooks/damage-control/damage_control.py:204-207 | the key loop extends each configuration key's list by the document's list, when it has one |
| Config.MergeDocuments | home/dot_claude/exact_hooks/damage-control/damage_control.py:190-209 | the merge has exactly the four configuration keys, each mapped to the concatenation of the documents' lists in order |
| Config.ParseAll | home/dot_claude/exact_hooks/damage-control/damage_control.py:201-203 | one parsed document per listed file, in listing order |
| Config.LoadPatternsDir | home/dot_claude/exact_hooks/damage-control/damage_control.py:188-209 | the merge of the parsed documents of the deduplicated listing |
| Handlers.HandleBash | home/dot_claude/exact_hooks/damage-control/damage_control.py:286-364 | the four loops yield `BashDecision`: empty command allowed, then rules, zero-access paths, read-only paths and no-delete paths, with the first hit deciding |
| Handlers.FirstMatchingPath | home/dot_claude/exact_hooks/damage-control/damage_control.py:373-382 | a file-tool loop blocks at the first configured path the file falls under |
| Handlers.HandleEdit | home/dot_claude/exact_hooks/damage-control/damage_control.py:367-384 | empty path allowed, then zero-access, then read-only paths |
| Handlers.HandleWrite | home/dot_claude/exact_hooks/damage-control/damage_control.py:387-402 | empty path allowed, then zero-access, then read-only paths |
| Handlers.HandleRead | home/dot_claude/exact_hooks/damage-control/damage_control.py:405-418 | empty path allowed, then zero-access paths only |
| Handlers.HandleGrep | home/dot_claude/exact_hooks/damage-control/damage_control.py:421-434 | empty `path` allowed, then zero-access paths only |
| Handlers.ToolDecision | home/dot_claude/exact_hooks/damage-control/damage_control.py:454-482 | a tool without a handler is allowed |
| Handlers.HandleToolCall | home/dot_claude/exact_hooks/damage-control/damage_control.py:454-482 | the dispatch calls the handler named by the tool, and allows any other tool |
| HandlerProperties.RuleStageNone | home/dot_claude/exact_hooks/damage-control/damage_control.py:298-321 | no rule decides exactly when no rule fires |
| HandlerProperties.RuleStageFirst | home/dot_claude/exact_hooks/damage-control/damage_control.py:298-321 | a decision by the rules comes from the first rule that fires: an ask with its reason, or a block |
| HandlerProperties.SilentRuleSkipped | home/dot_claude/exact_hooks/damage-control/damage_control.py:320-321 | a rule whose search raises `re.error` or finds nothing can be removed without effect |
| HandlerProperties.ZeroAccessStageNone | home/dot_claude/exact_hooks/damage-control/damage_control.py:324-346 | no zero-access entry decides exactly when the command mentions none |
| HandlerProperties.PathStageNone | home/dot_claude/exact_hooks/damage-control/damage_control.py:349-362 | no protected path decides exactly when no path's template check fires |
| HandlerProperties.ZeroAccessStageBlocks | home/dot_claude/exact_hooks/damage-control/damage_control.py:324-346 | a zero-access decision is a block with the truncated command and a `Blocked: ` reason |
| HandlerProperties.PathStageBlocks | home/dot_claude/exact_hooks/damage-control/damage_control.py:349-362 | a read-only or no-delete decision is a block with the truncated command and a `Blocked: ` reason |
| HandlerProperties.RulesTakePrecedence | home/dot_claude/exact_hooks/damage-control/damage_control.py:297-321 | once a rule fires, its outcome is the decision, whatever the path lists hold |
| HandlerProperties.BashAllowedIffNoStage | home/dot_claude/exact_hooks/damage-control/damage_control.py:286-364 | a Bash command is allowed exactly when it is empty or no stage decides |
| HandlerProperties.BashAllowedIff | home/dot_claude/exact_hooks/damage-control/damage_control.py:286-364 | a Bash command is allowed exactly when it is empty, or no rule fires, no zero-access entry is mentioned, and no read-only or no-delete check fires |
| HandlerProperties.BashDecisionShape | home/dot_claude/exact_hooks/damage-control/damage_control.py:298-362 | only a firing rule with `ask` set produces an ask, with that rule's reason; every block reports the truncated command and a `Blocked: ` reason |
| HandlerProperties.ZeroAccessMentionBlocks | home/dot_claude/exact_hooks/damage-control/damage_control.py:323-346 | a command that mentions a zero-access entry and that no rule decided is blocked |
| HandlerProperties.ZeroAccessLiteralIsSubstring | home/dot_claude/exact_hooks/damage-control/damage_control.py:336-346 | for an oracle satisfying `FindsLiterals`, a literal zero-access entry is mentioned exactly when the command contains it, as written or with `~` expanded |
| HandlerProperties.AnchoredRuleFiresIff | home/dot_claude/exact_hooks/damage-control/damage_control.py:303-307 | for an oracle satisfying `AnchorsKeywords`, an anchored rule for an ASCII literal keyword fires on an ASCII command exactly when the keyword is at a command position, ignoring case |
| HandlerProperties.MatchAnywhereSkipsAnchor | home/dot_claude/exact_hooks/damage-control/damage_control.py:303-307 | a `match_anywhere` rule is searched without the anchor |
| HandlerProperties.ReadOnlyCoversNoDelete | home/dot_claude/exact_hooks/damage-control/damage_control.py:348-362 | whatever a no-delete entry blocks, the same entry as a read-only path blocks too |
| HandlerProperties.FileStageNone | home/dot_claude/exact_hooks/damage-control/damage_control.py:373-382 | no entry decides exactly when the file falls under none of them |
| HandlerProperties.FileStageFirst | home/dot_claude/exact_hooks/damage-control/damage_control.py:373-382 | a file-tool block names the first entry the file falls under, and the truncated path |
| HandlerProperties.FileStageHit | home/dot_claude/exact_hooks/damage-control/damage_control.py:373-382 | a file under one of the entries makes the stage block |
| HandlerProperties.ZeroAccessBlocksEveryFileTool | home/dot_claude/exact_hooks/damage-control/damage_control.py:367-434 | a file under a zero-access entry is blocked for Edit, Write, Read and Grep |
| HandlerProperties.ReadOnlyIsReadable | home/dot_claude/exact_hooks/damage-control/damage_control.py:367-434 | a file under a read-only entry and no zero-access entry is blocked for Edit and Write, and allowed for Read and Grep |
| HandlerProperties.FileToolsAgree | home/dot_claude/exact_hooks/damage-control/damage_control.py:367-434 | Edit and Write block the same files, Read and Grep block the same files, and whatever Read blocks, Edit blocks |
| HandlerProperties.EmptyInputAllowed | home/dot_claude/exact_hooks/damage-control/damage_control.py:286-482 | an empty command or path, and any tool without a handler, is allowed |

## Left out

- Reading the configuration: finding the patterns directory or file (`get_patterns_dir`, `get_config_path`, `load_config`), the recursive directory listing and its sorting, and YAML parsing. These are file-system and parser I/O. The merge works on the listed paths and on a `parse` function.
- Reading the hook's JSON from stdin, and the exit status 1 on bad input. The model starts from a tool name and a map of its string fields.
- Printing (the ask JSON, the `SECURITY:` lines) and `sys.exit`. A handler returns a `Decision`; `ExitCode` and `StderrLines` state what the process reports.
- Python's regular-expression engine. `re.search` is an oracle parameter; only the two properties `FindsLiterals` and `AnchorsKeywords` are stated about it, as hypotheses.
- HandlerProperties.AnchoredRuleFiresIff: covers ASCII keywords and commands only, because `re.IGNORECASE` folds non-ASCII letters (the Kelvin sign matches `k`) that the model's ASCII lower-casing does not.
- HandleBash: reads an oracle `None` on the literal zero-access searches (damage_control.py:340-342) as "no match". Those calls sit outside any `try`, so in Python an error would end the hook. An escaped literal always compiles, so this case cannot arise with Python's `re`.
- `~user` expansion: only a first part that is exactly `~` is expanded, with `$HOME` given as a parameter. Looking up other users needs the password database.
- Lower-casing is ASCII only (`str.lower()` and `re.IGNORECASE` on other letters are not modelled). The anchor's `\s` is modelled by the characters `str.isspace` accepts.
- `fnmatch` bracket classes: single characters, `a-z` ranges and `!` negation are modelled, and escapes and other corner cases inside a class are not. `os.path.normcase` is a no-op on POSIX and is not modelled.
- Turning the merged lists into the handlers' `Config`: `Config.LoadPatternsDir` is generic in the item type, and checking that the `bashToolPatterns` items are rule mappings and the path items are strings is part of the YAML typing left out here.
- Entries of `bashToolPatterns` that are not mappings, and values of the wrong type under `pattern`, `reason`, `ask` or `match_anywhere`. Every rule is a record of optional fields, and every path entry is a string.

