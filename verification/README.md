# toolguard, modelled in Dafny

toolguard is a pre-tool-use hook for an AI coding assistant. Before a tool
call runs, the hook decides whether to allow it or deny it:

- A governed shell command is split into the commands it would run. This covers
  pipelines, `&&`, `||`, `;`, subshells, brace groups, and `$(…)` and backtick
  substitutions at any depth, but not a substitution written inside the modifier of
  `${name:-…}`, which stays part of the variable reference's text.
  Each sub-command is checked against ordered allow and deny patterns.
  Deny patterns come first, anything not explicitly allowed is denied, and the
  strictest decision wins.
- A file tool's path (`Read`, `Write`, `Edit`) is checked against the tool's path
  patterns in the same deny-first way.
- A decision is printed as JSON on standard output. When something goes wrong, the
  hook builds a denial but prints it on standard error and exits with status 0.

The model covers the following, as pure functions with their contracts and lemmas:

- the shell-line grammar (a PEG parser);
- sub-command extraction;
- the pattern kinds and matchers;
- the single-command and compound decisions;
- the file-path decision and the routing of the hook's `main`;
- the configuration loaders and merges;
- configuration validation;
- the `.env` parser and boolean lookup;
- the agent identification from the transcript.

One module per source file:

| module | file | source |
|---|---|---|
| `Results` | `results.dfy` | `Option`, `Result` |
| `Text` | `text.dfy` | the Python `str` operations the code uses (`strip`, `split`, `find`, `replace`, `lower` on ASCII) |
| `Lists` | `lists.dfy` | first-occurrence de-duplication and concatenation |
| `Values` | `values.dfy` | decoded JSON/TOML values, `dict.get` and iteration |
| `Environment` | `environment.dfy` | the home directory, file-system facts and library matchers, as parameters |
| `Grammar` | `grammar.dfy` | `parser/bash_parser.py` |
| `GrammarFacts` | `grammar_facts.dfy` | properties of that grammar |
| `HeredocFinding` | `heredoc.dfy` | the heredoc rule as generated, next to the corrected one |
| `Extractor` | `extractor.dfy` | `parser/command_extractor.py` |
| `FnMatch` | `fnmatch.dfy` | Python's `fnmatch.fnmatch`, as `match_command` calls it |
| `Patterns` | `patterns.dfy` | `patterns.py` |
| `Normalization` | `normalization.dfy` | `normalization.py` |
| `Permissions` | `permissions.dfy` | `permissions.py` |
| `Compound` | `compound.dfy` | `compound.py` |
| `Config` | `config.dfy` | `config.py` |
| `ConfigValidation` | `config_validation.dfy` | `config_validation.py` |
| `EnvConfig` | `env_config.dfy` | `env_config.py` |
| `Subagent` | `subagent.dfy` | `subagent.py` |
| `Hook` | `hook.dfy` | `hook.py` |

Errors the Python code raises and a caller catches are `Err` values. For example,
`IndexError` from a `:` pattern with nothing before the colon, or `AttributeError`
from `.get` on a list. The hook's `main` turns them into denials. Inputs the code
reads from the outside world are parameters:

- standard input;
- the decoded configuration files;
- the set of existing paths;
- the environment;
- the home directory;
- the transcript entries;
- regular-expression search and `PurePath.full_match`.

## Model

| member | source | states |
|---|---|---|
| Grammar.Parse | parser/bash_parser.py:3393-3399 | A parse succeeds only when `command_line` consumes the whole input; the tree's text is then the entire input and its body is a compound command. |
| Grammar.CommandLineRule | parser/bash_parser.py:238-273 | `command_line` consumes a prefix starting at 0 and yields a compound-command body whose node text is exactly the consumed slice. |
| Grammar.Spacing | parser/bash_parser.py:3348-3381 | `spacing` consumes only blanks and tabs and stops at the first character that is neither. |
| Grammar.CompoundRule | parser/bash_parser.py:274-349 | `compound_command` yields a compound node whose text is exactly the slice it consumed. |
| Grammar.SubshellRule | parser/bash_parser.py:872-945 | A subshell node spans its parentheses and holds a compound command. |
| Grammar.BraceGroupRule | parser/bash_parser.py:946-1019 | A brace group spans its braces and holds a compound command. |
| Grammar.SimpleCommandRule | parser/bash_parser.py:1020-1049 | A simple command's parts lie back to back and exactly cover its text. |
| Grammar.CommandWordRule | parser/bash_parser.py:1050-1092 | A command word is never read where a reserved word (as `reserved_word` decides it) begins. |
| Grammar.SingleQuotedRule | parser/bash_parser.py:2264-2391 | A single-quoted string opens and closes with `'` and has no `'` inside. |
| Grammar.DoubleQuotedRule | parser/bash_parser.py:2392-2531 | A double-quoted string opens and closes with `"`, and its parts exactly cover what lies between. |
| Grammar.CmdSubstitution | parser/bash_parser.py:1831-1846 | A command substitution is a `$(...)` or a backtick node holding a compound command. |
| Grammar.DollarParenRule | parser/bash_parser.py:1847-1927 | `$(...)` yields a substitution node holding a compound command, spanning what it consumed. |
| Grammar.BacktickRule | parser/bash_parser.py:1928-2008 | A backtick substitution yields a node holding a compound command, spanning what it consumed. |
| GrammarFacts.ModifierHidesSubstitution | parser/bash_parser.py:2731-3019 | In `${x:-$(rm -rf /)}` the variable reference with its modifier runs to the closing brace, so the `$(` inside it is modifier text, not a substitution. |
| Grammar.HeredocRule | parser/bash_parser.py:1216-1304 | A heredoc is a here-document redirection with a delimiter operand (corrected rule, see Findings). |
| GrammarFacts.ControlOpChoice | parser/bash_parser.py:350-371 | After blanks, `&&` is an AND, `\|\|` an OR, `;` a separator, and a lone `&` (not `&&`) runs in the background; a control operator is read exactly when one of `&`, `\|\|`, `;` is there. |
| GrammarFacts.PipeNotOr | parser/bash_parser.py:779-852 | `\|` is read as a pipe exactly when it is not the start of `\|\|`. |
| GrammarFacts.ReservedWordShape | parser/bash_parser.py:3042-3325 | A position refused as a reserved word starts with a reserved word that no name character follows. |
| GrammarFacts.IfIsReserved | parser/bash_parser.py:1050-1092 | `if x` starts with a reserved word, so `command_word` fails there. |
| GrammarFacts.IffyIsWord | parser/bash_parser.py:3042-3325 | `iffy` is not a reserved word: the lookahead after `if` sees a name character. |
| GrammarFacts.DoneIsWord | parser/bash_parser.py:3042-3325 | `done` is not a reserved word: ordered choice commits to `do`, whose lookahead fails, and `done` is never tried. |
| GrammarFacts.UnquotedWordBounds | parser/bash_parser.py:2666-2730 | An unquoted word is non-empty, holds no unescaped delimiter, and ends at a delimiter or at the end of the input. |
| GrammarFacts.UnquotedPiecesBounds | parser/bash_parser.py:2666-2730 | Every literal piece of an unquoted word is one non-delimiter character, and the repetition stops at a delimiter or at the end. |
| HeredocFinding.HeredocAsWritten | parser/bash_parser.py:1216-1303 | The generated heredoc rule always runs on to a line break or to the end of the input. |
| HeredocFinding.HeredocContentEnd | parser/bash_parser.py:1388-1454 | `heredoc_content` consumes exactly the characters up to the next `\n` or `\r`. |
| HeredocFinding.HeredocSwallowsCommand | parser/bash_parser.py:1388-1454 | On `cat <<EOF; rm -rf /` the generated rule consumes the `;` and the command after it; the corrected rule stops before `;`. |
| HeredocFinding.CorrectedIsPrefix | parser/bash_parser.py:1216-1303 | Both rules accept at the same offsets with the same delimiter; the corrected one ends no later, and they agree when a line break follows the delimiter. |
| HeredocFinding.HeredocStopsAfterDelimiter | parser/bash_parser.py:1216-1303 | The corrected heredoc consumes only blanks after its delimiter, leaving any operator that follows to the command-splitting rules. |
| Extractor.Extract | parser/command_extractor.py:63-76 | A blank line gives no commands; a line that does not parse gives just the stripped line; the result is always stripped, non-empty and duplicate-free. |
| Extractor.ParseCommandLine | parser/command_extractor.py:239-258 | The legacy name returns the same stripped, duplicate-free list, empty for a blank line. |
| Extractor.ExtractSurfaces | parser/command_extractor.py:79-235 | For a parsed line, every simple command, grouping (wrapper and inner text) and substitution anywhere in the tree is in the result. |
| Extractor.ExtractSound | parser/command_extractor.py:79-235 | For a parsed line, every extracted command is the stripped text some node of the tree contributes. |
| Extractor.NestedCommandSurfaced | parser/command_extractor.py:164-202 | Every simple command of the tree, however deeply nested, is extracted. |
| Extractor.NestedSubstitutionSurfaced | parser/command_extractor.py:204-229 | The inner text of every `$(...)` and backtick substitution at any depth is extracted. |
| Extractor.SubstitutionOwnsInner | parser/command_extractor.py:214-221 | A substitution contributes its inner compound text. |
| Extractor.InnerTextShape | parser/command_extractor.py:185-190 | The inner text of a grouping or substitution is already stripped and no longer than its body. |
| Extractor.WalkSound | parser/command_extractor.py:111-229 | The walk emits only strings owned by nodes of the tree. |
| Extractor.WalkComplete | parser/command_extractor.py:111-229 | The walk emits every string owned by any node of the tree. |
| Extractor.Walk | parser/command_extractor.py:111-229 | `_extract_from_tree`'s traversal: parents before children, children left to right. What it emits is stated by `Extractor.WalkSound` and `Extractor.WalkComplete`: exactly the strings owned by nodes of the tree. |
| Extractor.DedupSpec | parser/command_extractor.py:104-109 | `add_command` keeps a list that is stripped, non-empty and duplicate-free, and holds exactly the non-empty stripped inputs. |
| Extractor.DedupPrefix | parser/command_extractor.py:104-109 | First-seen order: what is collected from a prefix of the inputs stays unchanged at the front of the final list. |
| Extractor.Dedup | parser/command_extractor.py:104-109 | The `add_command` loop from an empty list. `Extractor.DedupSpec` states that the result is stripped, non-empty and duplicate-free and holds exactly the stripped inputs; `Extractor.DedupPrefix` states first-seen order. |
| Patterns.ParsePattern | patterns.py:46-50 | With extended syntax off every pattern is a default pattern; a default pattern is the stripped input. |
| Patterns.ParsePatternPrefix | patterns.py:52-59 | With extended syntax the kind is the one whose prefix the stripped pattern starts with, and the pattern is the stripped rest; default exactly when no prefix is present. |
| Patterns.PrefixUnique | patterns.py:52-57 | No string carries two different kind prefixes. |
| Patterns.ParsePatternRoundTrip | patterns.py:29-59 | Writing a stripped pattern behind its kind's prefix and parsing it gives back the kind and the pattern. |
| Patterns.ParsePatternDefault | patterns.py:58-59 | A stripped pattern not starting with `[` is a default pattern kept as it is. |
| Patterns.MatchPattern | patterns.py:62-135 | A regex matches exactly when the search finds a match (an invalid regex never matches); a glob matches exactly when the full match of the tilde-expanded command against the tilde-expanded pattern succeeds; a `[native]` pattern, matched as the code is written, only accepts commands its `*` pattern describes, accepts exactly the equal command when it has no star, and accepts everything when it is all stars; a default pattern is an `fnmatch` match. |
| Patterns.NativeAsWrittenSpec | patterns.py:96-135 | The `[native]` matcher as written is sound against the pattern's meaning, exact for star-free patterns, and total for patterns of stars only. |
| Patterns.NativeMatchExact | patterns.py:96-135 | The corrected `[native]` matcher accepts exactly the commands in which the literal pieces occur in order without overlap, the first at the start and the last at the end (unless a star stands there). |
| Patterns.NativeAsWritten | patterns.py:96-135 | The `[native]` matcher as the code is written. `Patterns.NativeAsWrittenSpec` and `Patterns.NativeAsWrittenSound` state that it never accepts what the pattern does not describe; `Patterns.NativeAsWrittenMissesMatch` shows it is not complete. |
| Patterns.NativeMatch | patterns.py:96-135 | The corrected `[native]` matcher, with the last piece anchored at the end. `Patterns.NativeMatchExact` states that it agrees with `Patterns.StarGlob` on every input. |
| Patterns.StarGlob | patterns.py:96-106 | The meaning of a pattern whose only wildcard is `*`, defined independently of any search: the literal pieces occur in order without overlap, the first at the start and the last at the end. It is the reference the `[native]` matchers are proved against. |
| Patterns.NativeAsWrittenSound | patterns.py:105-135 | The matcher as written never accepts wrongly: whatever it accepts, the corrected matcher accepts too, and the pattern describes it. |
| Patterns.NativeAsWrittenMissesMatch | patterns.py:108-133 | The `[native]` matcher as written rejects `xyzyz` for `x*yz` although the pattern describes it. |
| Patterns.NativeNoStar | patterns.py:100-102 | Without a star, a `[native]` pattern matches exactly the equal command, so the empty pattern matches only the empty command. |
| Patterns.NativeAllStars | patterns.py:110-112 | A `[native]` pattern of stars only matches every command. |
| Patterns.NativeMatchAllStars | patterns.py:110-112 | The corrected matcher also accepts every command for a pattern of stars only. |
| Patterns.StarGlobAllStars | patterns.py:110-112 | A pattern of stars only describes every command. |
| Patterns.ScanSound | patterns.py:108-127 | What the segment search loop accepts is a genuine in-order, non-overlapping placement of the pieces. |
| Patterns.ScanComplete | patterns.py:108-127 | The leftmost search loses nothing: when a placement of the pieces exists, the loop finds one ending where the last piece can follow. |
| FnMatch.PlainMatchesItself | permissions.py:174-178 | An `fnmatch` pattern without `*`, `?` or `[` matches exactly the equal string. |
| FnMatch.PlainStarMatchesPrefix | permissions.py:165-168 | A plain pattern followed by `*` matches exactly the strings it begins. |
| FnMatch.StarMatchesAll | permissions.py:174-178 | The pattern `*` matches every string. |
| FnMatch.FnMatch | permissions.py:165-178 | `fnmatch.fnmatch(name, pat)` as `match_command` calls it, with the bracket classes as a parameter. `FnMatch.PlainMatchesItself`, `FnMatch.PlainStarMatchesPrefix` and `FnMatch.StarMatchesAll` state its plain, prefix-star and all-star behaviour. |
| Normalization.ExpandTilde | normalization.py:108-120 | Only `~` and a leading `~/` are expanded to the home directory; every other path, `~user` included, is unchanged. |
| Normalization.ExpandTildeIdempotent | normalization.py:92-120 | Expanding twice is expanding once, when the home directory does not start with `~`. |
| Normalization.CollapseLeadingSlashes | normalization.py:39-41 | A leading run of slashes becomes one slash and the rest is kept; a path not starting with `/` is unchanged. |
| Normalization.CollapseIdempotent | normalization.py:39-41 | Collapsing leading slashes twice is collapsing once. |
| Normalization.NormalizePathShape | normalization.py:36-89 | An empty path stays empty; otherwise the result is the resolved path, possibly behind `./`, and without a project root it starts with `/`, `~` or `.`. |
| Normalization.NormalizePath | normalization.py:12-89 | `normalize_path`: collapse leading slashes, resolve, and put `./` before a relative result. `Normalization.NormalizePathShape` states the cases. |
| Normalization.HasShortExtension | normalization.py:170-176 | A token has a short extension exactly when the text after its last dot is one to four letters or digits. |
| Normalization.RewriteTokenCases | normalization.py:158-184 | The command name, flags and tokens that do not look like paths are kept; every other token becomes its normalised path. |
| Normalization.NormalizeTokensAt | normalization.py:158-184 | Each token is rewritten in place according to its own index. |
| Normalization.NormalizeCommand | normalization.py:151-155 | A blank command normalises to the empty string. |
| Normalization.NormalizeCommandWords | normalization.py:151-186 | When path normalisation turns a word into a non-empty word without blanks, the words of the normalised command are the original words, each rewritten in place. |
| Permissions.DotSlashArgsShape | permissions.py:52-57 | The `./` rule keeps the command word and the presence of arguments, and afterwards the arguments start like a path or a flag: the old arguments, possibly behind `./`. |
| Permissions.DotSlashArgsIdempotent | permissions.py:52-57 | Applying the `./` rule twice is applying it once. |
| Permissions.ArgHasComponentIff | permissions.py:89-93 | An argument has the component exactly when, with backslashes read as slashes, the component is a whole field between slashes. |
| Permissions.ContainsPathComponentWords | permissions.py:62-95 | The component is looked for in every word after the command word, and only there. |
| Permissions.ContainsPathComponent | permissions.py:62-95 | `contains_path_component`. `Permissions.ContainsPathComponentWords` and `Permissions.ArgHasComponentIff` state that it looks in every argument word, and only there, for the component between slashes. |
| Permissions.NormalizePathInCommand | permissions.py:19-57 | `normalize_path_in_command`: `normalize_command` without a project root, then `./` before arguments that do not start like a path or a flag. `Permissions.NormalizePathInCommandShape` states the result's shape. |
| Permissions.NormalizePathInCommandShape | permissions.py:19-57 | A blank command normalises to the empty string. Otherwise the command word is kept, arguments stay present exactly when they were, and they then start with `.`, `/`, `-` or `~`. |
| Permissions.ComponentPattern | permissions.py:137-144 | A `**/c/**` pattern matches exactly when `c` is a path component of some argument. |
| Permissions.PlainPatternExact | permissions.py:146-178 | A default pattern without wildcards or `:` matches exactly the command as written or as normalised. |
| Permissions.ColonStarWord | permissions.py:149-168 | `word:*` matches exactly the command that is `word` or starts with `word` and a space, as written or as normalised. |
| Permissions.ColonStarMatch | permissions.py:156-168 | With one plain word before the colon and `*` after it, the colon rule asks for that word alone or that word and a space. |
| Permissions.BlankColonFails | permissions.py:158-162 | A `:` pattern with nothing before the colon raises `IndexError`, whatever the command. |
| Permissions.ExtendedIgnoresNormalization | permissions.py:129-134 | Regex and glob patterns see only the command as given: normalisation and `fnmatch` classes do not affect them. |
| Permissions.MatchCommand | permissions.py:98-180 | No patterns match nothing, and a reported pattern is one of the patterns. |
| Permissions.MatchCommandFirst | permissions.py:125-180 | The first pattern that does not simply fail decides: if it matches it is reported, if it raises that error is the result. |
| Permissions.MatchCommandSome | permissions.py:125-180 | A reported pattern matched, and every earlier pattern failed without error. |
| Permissions.MatchCommandNone | permissions.py:125-180 | Nothing is reported exactly when every pattern fails to match without error. |
| Permissions.Decide | permissions.py:204-216 | An allow names an allow pattern; a deny names a deny pattern or says nothing matched; no allow patterns means never allow; an error comes from some pattern's test. |
| Permissions.DecideOk | permissions.py:183-216 | When no pattern raises, the permission check always reaches a decision. |
| Permissions.DenyWins | permissions.py:204-208 | The first matching deny pattern denies the command, whatever the allow patterns say. |
| Permissions.CheckPermission | permissions.py:183-216 | `check_permission`: `Permissions.Decide` with the command's pattern test. `Permissions.DenyWins`, `Permissions.AllowedSound`, `Permissions.AllowedComplete` and `Permissions.DeniedByDefault` hold for any test, so they state its deny-first contract. |
| Permissions.AllowedSound | permissions.py:204-213 | An allowed command matched no deny pattern, and the reason names the first allow pattern that matched. |
| Permissions.AllowedComplete | permissions.py:210-213 | A command matching no deny pattern and some allow pattern is allowed, naming the first allow pattern that matches. |
| Permissions.DeniedByDefault | permissions.py:215-216 | When no pattern matches or raises, the command is denied by default. |
| Compound.Combine | compound.py:58-60 | A line with no commands is denied with the no-commands reason. |
| Compound.CombineAllowedIff | compound.py:58-95 | A line is allowed exactly when it has at least one sub-command and every sub-command is allowed. |
| Compound.CheckCompoundPermission | compound.py:14-95 | `check_compound_permission`: `Compound.Combine` over the extracted sub-commands. `Compound.CombineAllowedIff`, `Compound.CombineDeniedFirst`, `Compound.NestedCommandChecked` and `Compound.UnparsedLineChecked` state its contract. |
| Compound.CombineDeniedFirst | compound.py:71-86 | With two or more sub-commands, the line is denied naming the first denied sub-command and its reason. |
| Compound.CombineErr | compound.py:63-72 | A failing compound check reports the error of some sub-command's check. |
| Compound.CheckFromAt | compound.py:71-80 | The loop records, for each sub-command in order, that sub-command's own decision. |
| Compound.CheckFromErr | compound.py:71-72 | The loop fails exactly when some sub-command's check raises, and then with that error. |
| Compound.FirstDenied | compound.py:84-86 | The reported denial is the first denied decision; every decision before it is an allow. |
| Compound.GetCommandBreakdown | compound.py:98-114 | The breakdown is stripped and duplicate-free, and empty for a blank line. |
| Compound.NestedCommandChecked | compound.py:56-95 | In an allowed line, every simple command of the parse tree, however deeply nested, is itself allowed by the single-command check. |
| Compound.UnparsedLineChecked | compound.py:56-64 | A line that does not parse gets the decision of the whole stripped line as one command. |
| Config.UnwrapIff | config.py:177-181 | An entry yields pattern `p` exactly when it is the string `Bash(p)` (or `Tool(p)`). |
| Config.UnwrapAllMember | config.py:177-188 | A pattern is extracted from a list exactly when its wrapped form is in the list. |
| Config.UnwrapWrapAll | config.py:177-181 | Extraction undoes wrapping, keeping order and repeats. |
| Config.PatternsFromFile | config.py:165-190 | A file that failed to load gives no patterns; a decoded file that is not a dictionary raises. |
| Config.PatternsFromLists | config.py:171-190 | A file with allow and deny lists yields exactly the unwrapped `Bash(...)` entries of each. |
| Config.MergePermissionsSpec | config.py:193-225 | The merged lists have no repeats, and a pattern is allowed (denied) after merging exactly when some source allows (denies) it. |
| Config.MergePermissionsPrefix | config.py:203-225 | Earlier sources keep their patterns first: merging a prefix of the sources gives a prefix of the full merge. |
| Config.LoadedAllowMember | config.py:421-429 | A pattern is collected exactly when some file loads and allows it; a broken file costs only its own patterns. |
| Config.LoadPermissionsAllow | config.py:400-436 | After discovery and merging, a pattern is allowed exactly when some file that loads allows it. |
| Config.LoadPermissions | config.py:342-436 | `load_permissions` without the settings-path override. `Config.LoadPermissionsAllow` and `Config.LoadedAllowMember` state that a pattern is loaded exactly when some readable file allows it. |
| Config.GovernedToolsFromFile | config.py:241-259 | A file that did not load gives no tools; a loaded file raises unless it is a dictionary. |
| Config.GovernedToolsMember | config.py:253-259 | A loaded dictionary always gives a tool list, and a tool is in it exactly when `governed_tools` is a list holding that string. |
| Config.MergeGovernedTools | config.py:262-285 | Merging no lists gives no tools. |
| Config.MergeGovernedToolsSpec | config.py:262-285 | The merged tools have no repeats and are exactly the tools of the inputs. |
| Config.ToolLists | config.py:328-332 | Only non-empty tool lists are kept. |
| Config.LoadGovernedTools | config.py:318-339 | Without hook files the governed tools are `["Bash"]`; the result is never empty and has no repeats. |
| Config.NoToolsDefault | config.py:335-336 | When no hook file names a tool, the default `["Bash"]` applies. |
| Config.Pick | config.py:112-131 | A candidate contributes an existing file of its own source, in TOML only where TOML is preferred. |
| Config.PickPrefers | config.py:111-131 | When both forms exist a candidate preferring TOML reads the TOML file and any other reads the JSON file; a candidate contributes nothing exactly when neither its JSON form nor a preferred TOML form exists; the file read has the candidate's source and the path of its format. |
| Config.PickAllSound | config.py:112-131 | Every discovered file exists and comes from a candidate, and TOML is chosen only where preferred. |
| Config.PickAll | config.py:111-133 | The loop keeps exactly the files of the candidates that have one. |
| Config.DiscoverConfigFiles | config.py:87-133 | At most eight files are discovered, and a file is discovered exactly when some project or user candidate picks it. |
| Config.PickAllInOrder | config.py:111-133 | The kept files are in candidate order, one per candidate with a file to read, with every such candidate represented. |
| Config.DiscoverOrder | config.py:87-133 | The discovered files follow the candidates in order (project level, when there is a project, then user level; each level local hook file, local settings, hook file, settings), one for each candidate that has a file to read. |
| Config.HookFiles | config.py:321-321 | The hook files are exactly the discovered files of the `toolguard_hook` source. |
| ConfigValidation.ExtractToolName | config_validation.py:15-32 | The tool name is the text before the first `(`, or the whole permission when there is none. |
| ConfigValidation.ExtractToolNameOf | config_validation.py:30-32 | `name(args)` and a bare `name` both give back `name`. |
| ConfigValidation.ToolNames | config_validation.py:76-80 | The names collected from a list are exactly the tool names of its string entries. |
| ConfigValidation.MentionedTools | config_validation.py:72-80 | The tools mentioned in the allow, deny and ask lists are collected once each. |
| ConfigValidation.MessageNamesTool | config_validation.py:85-109 | Each warning's message quotes its tool right after `Tool "`. |
| ConfigValidation.WarningsIff | config_validation.py:82-109 | A tool gets an unsupported warning exactly when it is mentioned and not supported, and an ungoverned warning exactly when it is mentioned, supported and not governed. |
| ConfigValidation.ValidatePermissions | config_validation.py:60-65 | Validation raises exactly when some additional supported tool cannot go into a set. |
| ConfigValidation.ValidateWarningsIff | config_validation.py:35-109 | Exactly the right warnings, with `governed_tools` defaulting to `["Bash"]`; no tool gets both kinds, and no warning is repeated. |
| ConfigValidation.WarningsDistinct | config_validation.py:82-109 | Distinct mentioned tools draw distinct warnings: one per tool at most of each kind. |
| ConfigValidation.NoPermissionsNoWarnings | config_validation.py:67-70 | A configuration without a permissions dictionary draws no warning. |
| ConfigValidation.WarningNamesTool | config_validation.py:82-109 | Every warning is about a tool mentioned in the permissions. |
| EnvConfig.StripQuotes | env_config.py:79-82 | Stripping quotes never lengthens the value. |
| EnvConfig.StripQuotesOf | env_config.py:79-82 | One pair of surrounding double or single quotes comes off, and an unquoted value is kept. |
| EnvConfig.ParseEnvLine | env_config.py:67-83 | A line sets nothing exactly when it is blank, a comment or has no `=`; otherwise the key is stripped and contains no `=`. |
| EnvConfig.ParsePlainLine | env_config.py:75-83 | `KEY=VALUE` with a plain key and an unquoted value parses to exactly that pair. |
| EnvConfig.ParseEnvLinesLast | env_config.py:64-83 | A key is set exactly when some line defines it, and then to the value of the last line that does. |
| EnvConfig.ParseEnvLines | env_config.py:64-83 | The line loop of `load_env_file`. `EnvConfig.ParseEnvLinesLast` states that each key takes the value of the last line that sets it. |
| EnvConfig.GetBoolEnv | env_config.py:111-131 | The environment wins over the `.env` map, which wins over the default; true words give true, false words false, anything else the default. |
| EnvConfig.TruthyFalsyDisjoint | env_config.py:124-127 | No value is both a true word and a false word. |
| EnvConfig.GetBoolCaseInsensitive | env_config.py:123-127 | Letter case does not change how a value reads. |
| Subagent.TaskCalls | subagent.py:91-101 | The records of one entry are exactly its `Task` tool-use items, with defaults `unknown` and empty. |
| Subagent.FindTaskToolUsesIff | subagent.py:62-103 | A record is found exactly when it is a `Task` call of an assistant entry with list content, tagged with that entry's index. |
| Subagent.FindTaskToolUsesOrdered | subagent.py:62-103 | The records come in transcript order and point into the transcript. |
| Subagent.FindTaskToolUses | subagent.py:62-103 | `find_task_tool_uses`. `Subagent.FindTaskToolUsesIff` and `Subagent.FindTaskToolUsesOrdered` state its contract. |
| Subagent.ResultIds | subagent.py:132-136 | The ids of one entry are exactly its tool results with a non-empty id. |
| Subagent.FindToolResultsDomain | subagent.py:106-138 | An id is mapped exactly when some user entry answers it. |
| Subagent.FindToolResultsLast | subagent.py:106-138 | A mapped id points to the last entry that answers it. |
| Subagent.FindToolResults | subagent.py:106-138 | `find_tool_results`. `Subagent.FindToolResultsDomain` and `Subagent.FindToolResultsLast` state its contract. |
| Subagent.SelectLatestOpen | subagent.py:185-206 | The main agent exactly when every call is answered later; otherwise the latest open call, with its type, description and id. |
| Subagent.Select | subagent.py:183-206 | The backwards loop of `identify_current_agent`. `Subagent.SelectLatestOpen` states that it picks the latest open call. |
| Subagent.ClosedIff | subagent.py:185-196 | The loop's closed test on the scanned results holds exactly when a later entry answers the call. |
| Subagent.IdentifyCurrentAgent | subagent.py:166-177 | No transcript path or no entries means the main agent. |
| Subagent.IdentifySubagent | subagent.py:141-206 | An identified subagent comes from a recorded `Task` call that no later entry answers, and every call recorded after it is answered by a later entry, so it is the latest open call. |
| Subagent.IdentifyMainIff | subagent.py:141-206 | With a transcript, the main agent is running exactly when every `Task` call of the transcript has been answered by a later entry. |
| Hook.CreateHookOutput | hook.py:183-200 | The output is a dictionary with exactly one entry, from which the decision and reason read back unchanged (`Hook.ReadCreated`). |
| Hook.ReadCreated | hook.py:194-200 | Reading the output back gives the decision and the reason it was made with. |
| Hook.LoadFilePathPatternsSpec | hook.py:216-251 | A tool's path patterns are the duplicate-free union over the files of the `Tool(...)` entries; an error exactly when some file has sections of the wrong type. |
| Hook.LoadFilePathPatterns | hook.py:203-251 | `load_file_path_patterns(tool)`. `Hook.LoadFilePathPatternsSpec` and `Hook.CollectPatternsMerge` state its contract. |
| Hook.CollectPatternsMerge | hook.py:224-249 | Collecting file by file is the same as merging the files' patterns. |
| Hook.CheckFilePathPermission | hook.py:254-290 | An allowed path names an allow pattern; a denied path names a deny pattern or says nothing matched. |
| Hook.PathDenyWins | hook.py:271-278 | The first matching deny pattern denies the path, whatever the allow patterns say. |
| Hook.PathAllowedIff | hook.py:268-290 | A path is allowed exactly when no deny pattern matches it and some allow pattern does. |
| Hook.PathDeniedByDefault | hook.py:289-290 | A path that no pattern matches is denied by default. |
| Hook.PathTildeExpanded | hook.py:268-275 | `~/x` and its expansion get the same decision. |
| Hook.Has | hook.py:172-175 | `field in data` works on dictionaries, lists and strings, and raises for any other value. |
| Hook.ParseHookInput | hook.py:164-180 | Blank input is a value error, undecodable input a decoding error, and a parsed call comes from a decoded dictionary. |
| Hook.ParseWellFormed | hook.py:164-177 | A dictionary with the three required fields yields its tool name and tool input. |
| Hook.FileTool | hook.py:341-381 | A file tool is allowed only when it has a string `file_path`. |
| Hook.EmitFailsClosed | hook.py:414-439 | Every outcome is printed as a readable allow or deny. It goes to standard error exactly when something raised, and then it is a deny. The extra error line appears only for an unexpected error. A decision is printed unchanged. |
| Hook.MainFailsClosed | hook.py:293-439 | Every run of `main` prints a readable allow or deny, and a deny whenever it writes to standard error. |
| Hook.Outcome | hook.py:311-417 | The body of `main`'s `try`. Its contract is stated by `Hook.EnvErrorDeniesAll`, `Hook.TranscriptDecodeError`, `Hook.UngovernedAllowed`, `Hook.Routes`, `Hook.FileToolGuards`, `Hook.CommandToolGuards` and `Hook.AllowedByCheck`. |
| Hook.Main | hook.py:293-439 | `main()`. `Hook.MainFailsClosed` and `Hook.EmitFailsClosed` state how it prints. |
| Hook.TranscriptDecodeError | hook.py:336-431 | A governed call whose transcript cannot be decoded is denied on standard error as "Invalid hook input", without the further error line. |
| Hook.EnvErrorDeniesAll | hook.py:311-313 | When loading the environment configuration raises, every call is denied on standard error as an unexpected error, whatever standard input holds. |
| Hook.UngovernedAllowed | hook.py:328-333 | A tool outside the governed list is allowed, naming the governed tools. |
| Hook.Routes | hook.py:340-404 | A governed call that nothing stopped goes to the file-path check for `Read`/`Write`/`Edit` and to the command check otherwise. |
| Hook.FileToolGuards | hook.py:341-366 | A file tool without a non-empty `file_path`, or without any allow pattern, is denied before any matching. |
| Hook.CommandToolGuards | hook.py:383-400 | A command tool without a non-empty command, or without any `Bash(...)` allow pattern, is denied whatever the compound check would say. |
| Hook.CommandTool | hook.py:383-417 | The command branch of `main`. `Hook.CommandToolGuards` and `Hook.AllowedByCheck` state its contract. |
| Hook.AllowedByCheck | hook.py:368-404 | An allowed governed call was allowed by its check: the path check for a file tool, the compound check for a command. |

## Left out

- Standard input and output, logging (`log_command`, the error log), `print` to
  standard error and `sys.exit`. They are I/O. `main`'s output is modelled as a value
  with the stream it goes to.
- Reading and decoding files (`json.load`, `tomllib.load`, the transcript tail). Files
  are given decoded, or as failed to load. Which paths exist is a set parameter.
- Finding the project root, and the whole `CLAUDE_SETTINGS_PATH` branch of
  `load_permissions` and `load_governed_tools` (`config.py:304-315`, `config.py:362-398`).
  These are environment lookups with `sys.exit` on failure.
- `get_env_config` and `load_env_file`'s file access. The `.env` lines and
  `os.environ` are parameters. So is the resulting `extended_syntax` setting. Whether
  `get_env_config` raised (an unexpandable `~user` root, a missing working directory)
  is an input too, checked before standard input is read.
- The start-up validation's file reading and its run-once flag (`hook.py:38-136`).
  Only whether it raised is an input, and the warnings it logs are not printed.
- The reading of the transcript (`read_transcript_tail`, `parse_jsonl_lines`). The
  transcript is given as its decoded entries. What `identify_current_agent` raised is an
  input, as `main` would catch it: a decoding error is a `ValueError`, reported as
  invalid hook input; anything else is an unexpected error.
- Subagent.IdentifyCurrentAgent: only well-formed entries are modelled (dictionaries
  with a dictionary `message`, list or string content, dictionary items, string ids).
  An entry that is not, which makes the program raise an `AttributeError` or a
  `TypeError`, is represented only by that raised error.
- Regular-expression search (`re.search`), `PurePath.full_match`, the home directory,
  symlink resolution with the home-directory rewrite, and the existence of files.
  These are library and operating-system behaviour, and they are parameters.
- The characters an `fnmatch` bracket class admits (ranges, `!`). This is library
  behaviour, so it is a parameter. The extent of a class is modelled.
- Patterns.MatchPattern: the regex and glob branches are only as good as the
  `search` and `fullMatch` parameters.
- Patterns.MatchPattern: the `[native]` branch is the matcher as written, so it is
  sound but not complete (see Findings). The corrected `Patterns.NativeMatch` is proved
  exact by `Patterns.NativeMatchExact`. `match_command` never reaches this branch.
- Normalization.HasShortExtension: `str.isalnum` is modelled on ASCII letters and
  digits. A non-ASCII extension such as `file.é` is not recognised.
- The grammar below uses the corrected heredoc rule (see Findings). The generated rule
  runs the heredoc on to the end of the line. So in the program `cat <<EOF; rm -rf /`
  is one command and `(cat <<EOF; rm x)` does not parse, while here the first is two
  commands and the second a subshell. Every member built on the heredoc rule differs
  from the program on such lines:
- Grammar.Parse: uses the corrected heredoc rule, so on a line with a heredoc followed by more text it can split or parse where the program does not.
- Grammar.CommandLineRule: uses the corrected heredoc rule, so on a line with a heredoc followed by more text it can split or parse where the program does not.
- Grammar.CompoundRule: uses the corrected heredoc rule, so on a line with a heredoc followed by more text it can split or parse where the program does not.
- Grammar.SubshellRule: uses the corrected heredoc rule, so on a line with a heredoc followed by more text it can split or parse where the program does not.
- Grammar.BraceGroupRule: uses the corrected heredoc rule, so on a line with a heredoc followed by more text it can split or parse where the program does not.
- Grammar.SimpleCommandRule: uses the corrected heredoc rule, so on a line with a heredoc followed by more text it can split or parse where the program does not.
- Grammar.CommandWordRule: uses the corrected heredoc rule, so on a line with a heredoc followed by more text it can split or parse where the program does not.
- Grammar.DoubleQuotedRule: uses the corrected heredoc rule, so on a line with a heredoc followed by more text it can split or parse where the program does not.
- Grammar.CmdSubstitution: uses the corrected heredoc rule, so on a line with a heredoc followed by more text it can split or parse where the program does not.
- Grammar.DollarParenRule: uses the corrected heredoc rule, so on a line with a heredoc followed by more text it can split or parse where the program does not.
- Grammar.BacktickRule: uses the corrected heredoc rule, so on a line with a heredoc followed by more text it can split or parse where the program does not.
- Grammar.HeredocRule: uses the corrected heredoc rule, so on a line with a heredoc followed by more text it can split or parse where the program does not.
- Extractor.Extract: uses the corrected heredoc rule, so on a line with a heredoc followed by more text it can split or parse where the program does not.
- Extractor.ParseCommandLine: uses the corrected heredoc rule, so on a line with a heredoc followed by more text it can split or parse where the program does not.
- Compound.GetCommandBreakdown: uses the corrected heredoc rule, so on a line with a heredoc followed by more text it can split or parse where the program does not.
- Compound.CheckCompoundPermission: checks the sub-commands found with the corrected heredoc rule, so with allow `Bash(cat:*)` it denies `cat <<EOF; rm -rf /`, which the program allows as a single `cat` command.
- Hook.Main: judges commands with `Compound.CheckCompoundPermission`, so it denies `cat <<EOF; rm -rf /` under allow `Bash(cat:*)` where the program allows it.
- A substitution inside a variable modifier, as in `${name:-$(…)}`, is neither
  extracted nor checked, in the program as in the model: the modifier is text up to
  the closing brace (`GrammarFacts.ModifierHidesSubstitution`).
- The packrat memo table of the generated parser, which only caches results. Also
  the parser's error message (`format_error`): a parse failure is `None`.
- Python's `RecursionError` on deeply nested input. `extract_commands` would catch it
  and fall back to the stripped line. The model parses any depth.
- The order in which Python walks the set of mentioned tools in `validate_permissions`.
  Python leaves it unspecified, so the model uses first-mention order.
- A decoded dictionary has no repeated key. The decoders guarantee this, and `Lookup`
  takes the first entry.
- Of a float only whether it is zero is kept, which is all that truthiness needs.
  Floating point is not modelled.
- `str.lower` is modelled on ASCII letters only (`Text.AsciiLower`). Unicode case
  mapping is not modelled.
- The exact texts of Python's own exception messages are approximated. Each becomes
  part of the reason `main` prints: "Invalid hook input" for a `ValueError`, and
  "Unexpected error in hook" for any other exception.
- The "ask" branch of `check_compound_permission` (`compound.py:76-78`, `compound.py:90-92`).
  `check_permission` only answers allow or deny, so it is never taken and has no
  counterpart. The `ask_patterns` argument is never consulted.
- The reasons in the docstring of `check_compound_permission` differ from the code's.
  The code's texts (`"Command matches deny pattern: ..."`, `"All N sub-commands ..."`)
  are modelled.
- The comment in the `[native]` branch says a star stands for non-whitespace
  characters. The code lets a star stand for any text, spaces included, and the model
  follows the code.
- `match_pattern`'s `DEFAULT` branch is a fallback. `match_command` handles default
  and `[native]` patterns itself through `fnmatch`: a `[native]` pattern goes down the
  default path with its prefix cut off, as the code does.
- Extractor.Extract: "a command line without operators extracts to itself" is not
  proved for all such lines. `Extract` and `ExtractSound` bound the result by the parse tree. A concrete
  line would need a full parse inside the verifier.
- Extractor.ExtractSurfaces: states membership and first-seen order
  (`Extractor.DedupPrefix`), not the exact position of each command in the result.
- `toml_config.py`, `log_writer.py` and `error_log.py` are not part of this model.
  They are file formats and logging.

## Findings

| source | as written | input that shows it | evidently intended | confidence | as-written member | corrected member |
|---|---|---|---|---|---|---|
| parser/bash_parser.py:1388-1454 | `heredoc` ends with `heredoc_content <- (![\n\r] .)*`, which takes the rest of the line after the delimiter as heredoc content | `cat <<EOF; rm -rf /`: the heredoc swallows `; rm -rf /`, so the line is one simple command and `rm -rf /` is never checked on its own | the heredoc ends after its delimiter, as in a shell (whose body is read from the following lines), so `; rm -rf /` is a separate command | not executed | HeredocFinding.HeredocSwallowsCommand | HeredocFinding.HeredocStopsAfterDelimiter |
| patterns.py:108-133 | the `[native]` matcher places every piece at its leftmost occurrence, the last one included, and then demands that the last piece end the command | `x*yz` against `xyzyz`: `yz` is found at offset 1, the end check fails and the match is refused, although the star can stand for `yz` | the last piece is matched at the end of the command whenever it occurs there | not executed | Patterns.NativeAsWrittenMissesMatch | Patterns.NativeMatchExact |
