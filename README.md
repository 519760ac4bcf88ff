# opencode plugins: prompt overrides, config overlay and agent instructions

This project models three opencode plugins from a dotfiles repository and
proves properties of the models.

- **provider-system-prompts** replaces the provider part of the outbound
  system prompt with a rule's template.
  - It reads rule files (`*.md` with a `---` YAML header) from
    `<global config dir>/provider-system-prompts`.
  - It validates each header: exactly one of `model` and `modelRegex`,
    `flags` only with `modelRegex`, and a boolean `enabled`.
  - It caches the rules of a directory under a `name:mtime|…` signature of
    its files, and caches compiled regexes, failures included, under
    `pattern::flags`.
  - It picks the first rule, in sorted file order, that matches
    `provider/model`.
  - It renders `{{opencode:provider}}` and `{{opencode:builtin:<name>}}` by
    literal split and join.
  - It splices the result into `output.system[0]`, keeping the leading
    whitespace and replacing only the provider-prompt prefix.
  - A second hook overwrites `options.instructions` unless the agent has a
    prompt of its own.
  - Every warning is logged once per key.
- **config-d** deep-merges an overlay into the host configuration.
  - The overlay is every `*.json`/`*.jsonc` file of the `config.d`
    directory, in ascending name order; later files win.
  - It is applied only when a base `opencode.json` (else `opencode.jsonc`)
    exists and the overlay has keys.
  - Each file is loaded by substituting `{env:NAME}` references in one
    left-to-right pass, then inlining `{file:path}` references, except
    those whose first containing line is a `//` comment.
  - Parse errors are reported by line and column.
- **agent-instructions** appends `<agent>.instructions.md` to
  `output.system`. It looks for the project-level file first, then the
  global one, caches hits and misses per agent, and takes the agent of the
  latest user message.

The closure state of each plugin is a Dafny class whose methods update its
fields: `PromptEngine.Engine`, `ConfigD.Config` and
`AgentInstructions.InstructionLoader`. Each method's postcondition gives
its result and the fields it changes in terms of specification functions
of the old state and the inputs. The warning log, for instance, is
`WarnAll` of the old log and an exact list of keys. The properties are
proved as lemmas about those functions. The pure parts are
functions over datatypes: frontmatter splitting, header validation, rule
matching, prompt rendering, prefix splitting, the JSON merge, the text
substitutions and the error positions.

The host enters as parameters:
- the file system (`FileSystem.Fs`: directory listings, file contents or
  read failures, and mtimes);
- the environment map and the home directory;
- the YAML and JSONC parsers, as functions from text to a parsed document;
- a regex oracle that says whether a pattern compiles and what it matches;
- the dynamic `import()` of the host's `SystemPrompt` module;
- the answer of `client.path.get` during the hook call being modelled;
- the answer of `client.session.messages` during the hook call being modelled.

Modules:
- `Wrappers`: `Option` and `Result`.
- `Text`: trim, `indexOf`, `includes`, `split`/`join`, `replaceAll`,
  lower-casing and number printing.
- `Sorting`: `sort()` without a comparator on file names, as an ascending
  order of the characters (see "Left out" for code units).
- `FileSystem`: the host's files and directories.
- `PromptRules`, `PromptRender` and `PromptEngine`: provider-system-prompts.ts.
- `JsonMerge`, `ConfigText` and `ConfigD`: config-d.ts.
- `AgentInstructions`: agent-instructions.ts.

Two behaviours are kept as written and proved:
- Environment substitution is a single pass.
  `SubstEnvCanLeaveRef` shows that `{{env:A}env:B}` with `A` unset leaves
  the reference `{env:B}` in the text.
- The skip rule for commented `{file:…}` references tests the first line
  that contains the reference. It uses the lines of the text before any
  file was inlined.

The hooks and the loader follow the code as written in the two places
listed under "Findings". These are the provider prefix that is cut and the
`$` patterns of `replace`. The corrected definitions stand beside them
with their own proofs.

## Model

| member | source | states |
|---|---|---|
| `PromptRules.FindDelimiter` | dotfiles/.config/opencode/plugins/provider-system-prompts.ts:318-325 | the index found is the first `---` line at or after the start; none is found only when no later line is a delimiter |
| `PromptRules.SplitFrontmatter` | dotfiles/.config/opencode/plugins/provider-system-prompts.ts:313-329 | the search loop over the lines returns the header/body split defined by `FrontmatterOf` |
| `PromptRules.FrontmatterExists` | dotfiles/.config/opencode/plugins/provider-system-prompts.ts:314-325 | a file has frontmatter exactly when its first line and some later line are `---` delimiters |
| `PromptRules.FrontmatterRoundTrip` | dotfiles/.config/opencode/plugins/provider-system-prompts.ts:313-329 | the header lies strictly between the first two delimiters with no delimiter inside; opening line, header, closing line and body rebuild the LF-normalised text |
| `PromptRules.CheckHeaderSpec` | dotfiles/.config/opencode/plugins/provider-system-prompts.ts:253-288 | a header is accepted exactly when it is not `enabled: false`, its `flags` is absent or a string, exactly one of `model`/`modelRegex` is a non-empty string, and `flags` comes only with `modelRegex`; `model` gives an exact matcher, else a pattern with its flags |
| `PromptRules.RegexKeyCollides` | dotfiles/.config/opencode/plugins/provider-system-prompts.ts:339 | the cache key `pattern::flags` is shared by different pattern/flags pairs |
| `PromptRules.StripLeadingNewline` | dotfiles/.config/opencode/plugins/provider-system-prompts.ts:299-301 | the prompt is the body, less one leading newline when there is one |
| `PromptRules.RuleFromHeaderSpec` | dotfiles/.config/opencode/plugins/provider-system-prompts.ts:290-303 | an exact rule leaves the regex cache alone; a pattern rule exists exactly when its cached or fresh compilation succeeds, and the cache then holds that outcome under the key; an `invalid-regex` warning means a fresh failed compilation was cached as a failure |
| `PromptRules.ParseRuleFileSpec` | dotfiles/.config/opencode/plugins/provider-system-prompts.ts:226-251 | an unreadable file, missing frontmatter or malformed YAML gives no rule and leaves the cache alone; otherwise the header checks run on the body less its leading newline |
| `PromptRules.FirstMatchingIsFirst` | dotfiles/.config/opencode/plugins/provider-system-prompts.ts:372-376 | the first rule that matches, exactly or by regex, is the one returned |
| `PromptRules.FirstMatchingNone` | dotfiles/.config/opencode/plugins/provider-system-prompts.ts:371-377 | no rule is returned exactly when none matches |
| `PromptRules.MatchRuleIsFirst` | dotfiles/.config/opencode/plugins/provider-system-prompts.ts:367-377 | `matchRule` returns the first matching rule, nothing when none matches, and nothing for a missing rule list |
| `PromptRules.RuleFileNamesMembers` | dotfiles/.config/opencode/plugins/provider-system-prompts.ts:188-190 | the names kept are exactly those of regular files whose lower-cased name ends in `.md` |
| `PromptRules.MarkdownFilesSpec` | dotfiles/.config/opencode/plugins/provider-system-prompts.ts:188-191 | the rule files are those names in ascending order |
| `PromptRules.StatTextInjective` | dotfiles/.config/opencode/plugins/provider-system-prompts.ts:198-201 | different stat results print differently |
| `PromptRules.SignatureDetectsTouch` | dotfiles/.config/opencode/plugins/provider-system-prompts.ts:195-208 | the same files with any different stat result give a different signature, so the cached rules are not reused |
| `PromptRules.ParseFilesPrefix` | dotfiles/.config/opencode/plugins/provider-system-prompts.ts:210-216 | the rules and warnings collected from the first files are a prefix of those of all files, with at most one rule per file |
| `PromptRules.LoadDirSpec` | dotfiles/.config/opencode/plugins/provider-system-prompts.ts:173-221 | with rule files: a cached entry with the same signature is returned untouched; otherwise every file is parsed, no rules give `null`, and the entry is stored under the new signature |
| `PromptRules.LoadDirEmpty` | dotfiles/.config/opencode/plugins/provider-system-prompts.ts:176-193 | a missing directory, an unreadable one (with its warning) or one without `.md` files gives no rules and keeps both caches |
| `PromptRules.LoadDirRepeat` | dotfiles/.config/opencode/plugins/provider-system-prompts.ts:204-208 | loading an unchanged directory again returns the same rules from the cache, with no parsing and no warning |
| `PromptRules.TouchedDirReparses` | dotfiles/.config/opencode/plugins/provider-system-prompts.ts:195-220 | after a rule file's mtime changes, the next load reparses every file |
| `PromptRender.SplitProviderPrefixSpec` | dotfiles/.config/opencode/plugins/provider-system-prompts.ts:443-458 | a split exists exactly when the left-trimmed text contains the marker; prefix and rest rebuild that text, the prefix has no trailing whitespace and no marker, and the rest is whitespace then the marker |
| `PromptRender.ProviderValueOrder` | dotfiles/.config/opencode/plugins/provider-system-prompts.ts:394-405 | the provider placeholder takes a non-empty default prompt, else the system text's right-trimmed marker prefix, else the empty text |
| `PromptRender.RenderProviderSpec` | dotfiles/.config/opencode/plugins/provider-system-prompts.ts:393-407 | every occurrence of `{{opencode:provider}}` is replaced by the provider value, with one warning exactly when a placeholder is present and that value is empty |
| `PromptRender.SubstituteWithoutTokens` | dotfiles/.config/opencode/plugins/provider-system-prompts.ts:421-432 | without any builtin token the builtin pass changes nothing and warns about nothing |
| `PromptRender.SubstituteWarnings` | dotfiles/.config/opencode/plugins/provider-system-prompts.ts:424-430 | every warning of the builtin pass names a key whose value is empty |
| `PromptRender.RenderLazy` | dotfiles/.config/opencode/plugins/provider-system-prompts.ts:409-433 | the builtin pass runs on the provider pass's output, and a text without builtin tokens does not depend on the builtins |
| `PromptRender.RenderPlain` | dotfiles/.config/opencode/plugins/provider-system-prompts.ts:383-436 | a template without placeholders renders to itself, with no warning |
| `PromptRender.FirstUsableSpec` | dotfiles/.config/opencode/plugins/provider-system-prompts.ts:97-111 | the module used is that of the first specifier that imports with both members; none when no specifier does |
| `PromptRender.TransformSystemSkips` | dotfiles/.config/opencode/plugins/provider-system-prompts.ts:486-493 | when the text neither starts with the default prompt nor has a non-empty marker prefix, `output.system` is unchanged |
| `PromptRender.PrefixOfTrimmed` | dotfiles/.config/opencode/plugins/provider-system-prompts.ts:487-509 | once the guard passes, the prefix the code cuts, `defaultProviderPrompt ?? split?.prefix ?? ""`, is a prefix of the left-trimmed text |
| `PromptRender.CorrectedPrefixSpec` | dotfiles/.config/opencode/plugins/provider-system-prompts.ts:487-509 | once the guard passes, the corrected prefix is non-empty, starts the left-trimmed text, and is the non-empty default prompt or else the marker-split prefix |
| `PromptRender.TransformSystemFrame` | dotfiles/.config/opencode/plugins/provider-system-prompts.ts:473-511 | only the first element can change; no rule, no text or a failed guard change nothing |
| `PromptRender.TransformSystemSpec` | dotfiles/.config/opencode/plugins/provider-system-prompts.ts:473-511 | when a rule matches and the guard holds, the text is leading whitespace, then the prefix `defaultProviderPrompt ?? split?.prefix ?? ""`, then the rest; the new text is that whitespace, the rendered template and the same rest |
| `PromptRender.SpliceSplits` | dotfiles/.config/opencode/plugins/provider-system-prompts.ts:500-510 | a splice keeps the leading whitespace and everything after the replaced prefix of the trimmed text |
| `PromptRender.BlankDefaultKeepsPrefix` | dotfiles/.config/opencode/plugins/provider-system-prompts.ts:486-510 | with a blank default prompt, the code as written keeps the non-empty marker prefix after the rendered template; the corrected prefix removes it |
| `PromptRender.ParamsOptionsSpec` | dotfiles/.config/opencode/plugins/provider-system-prompts.ts:512-552 | `options` changes only for string instructions, an agent without its own prompt and a matching rule; then it is the template rendered with the existing instructions, empty ones included, as the provider value, and the provider pass warns exactly when a placeholder meets empty instructions |
| `PromptEngine.WarnAllSpec` | dotfiles/.config/opencode/plugins/provider-system-prompts.ts:54-58 | warning keys in turn extends the log, keeps it duplicate-free and logs exactly the old keys and the new ones |
| `PromptEngine.WarnAllAppend` | dotfiles/.config/opencode/plugins/provider-system-prompts.ts:54-58 | warning two lists of keys in turn is warning their concatenation |
| `PromptEngine.Engine.constructor` | dotfiles/.config/opencode/plugins/provider-system-prompts.ts:43-49 | the plugin starts with empty caches and an empty log, nothing resolved or imported |
| `PromptEngine.Engine.WarnOnce` | dotfiles/.config/opencode/plugins/provider-system-prompts.ts:54-58 | a key is logged the first time it is warned, never again |
| `PromptEngine.Engine.ResolveGlobalConfigDir` | dotfiles/.config/opencode/plugins/provider-system-prompts.ts:75-92 | the first call takes this call's non-empty host answer, else `~/.config/opencode`, warning when the host call threw; it is remembered, and every later call returns it, whatever the host answers then, without warning |
| `PromptEngine.Engine.LoadSystemPromptModule` | dotfiles/.config/opencode/plugins/provider-system-prompts.ts:94-119 | the import probe runs once; every call returns the module it settled on; a failure is warned about |
| `PromptEngine.Engine.GetBuiltinPrompts` | dotfiles/.config/opencode/plugins/provider-system-prompts.ts:121-155 | the builtins are computed once from the module and then served from the cache; a throwing call gives none, is warned about and is not cached |
| `PromptEngine.Engine.GetDefaultProviderPrompt` | dotfiles/.config/opencode/plugins/provider-system-prompts.ts:157-171 | the host's first provider prompt for the model, trimmed, or none, with a warning when the call throws |
| `PromptEngine.Engine.GetCachedRegex` | dotfiles/.config/opencode/plugins/provider-system-prompts.ts:332-353 | a cached key answers from the cache; a new key is compiled once and its outcome, failure included, is cached; only a fresh failure warns |
| `PromptEngine.Engine.ParseMarkdownRuleFile` | dotfiles/.config/opencode/plugins/provider-system-prompts.ts:223-311 | the rule, regex cache and log after one file are those of `ParseRuleFile` |
| `PromptEngine.Engine.ParseRuleText` | dotfiles/.config/opencode/plugins/provider-system-prompts.ts:230-303 | after the read, the rule, regex cache and log are those of `PromptRules.ParseRuleText`: missing frontmatter and invalid YAML each warn once and give no rule |
| `PromptEngine.Engine.ParseSections` | dotfiles/.config/opencode/plugins/provider-system-prompts.ts:239-303 | a YAML parse failure warns `invalid-yaml` and gives no rule; otherwise the outcome is that of the header checks |
| `PromptEngine.Engine.RuleFromMeta` | dotfiles/.config/opencode/plugins/provider-system-prompts.ts:253-303 | the header checks and the regex lookup give the rule, cache and warnings of `RuleFromHeader` |
| `PromptEngine.Engine.ComputeSignature` | dotfiles/.config/opencode/plugins/provider-system-prompts.ts:195-204 | the loop builds the directory's stat signature |
| `PromptEngine.Engine.CollectRules` | dotfiles/.config/opencode/plugins/provider-system-prompts.ts:210-216 | the loop collects, in file order, the rules `ParseFiles` defines, threading the regex cache and log |
| `PromptEngine.Engine.LoadMarkdownRulesFromDir` | dotfiles/.config/opencode/plugins/provider-system-prompts.ts:173-221 | rules, both caches and the log after the call are those of `LoadDir` |
| `PromptEngine.Engine.LoadRuleFiles` | dotfiles/.config/opencode/plugins/provider-system-prompts.ts:195-220 | the signature check and reparse of the listed files are those of `LoadNames` |
| `PromptEngine.Engine.FindMatchingRule` | dotfiles/.config/opencode/plugins/provider-system-prompts.ts:356-365 | the rule is the first match among the rules of `<resolved global dir>/provider-system-prompts`; the caches are those of the directory load, and the log gains the directory warning and the load's warnings |
| `PromptEngine.Engine.SubstituteBuiltinTokens` | dotfiles/.config/opencode/plugins/provider-system-prompts.ts:419-433 | the loop over the builtin keys gives the text and warnings of `SubstituteBuiltins` |
| `PromptEngine.Engine.ProviderPass` | dotfiles/.config/opencode/plugins/provider-system-prompts.ts:393-407 | the text and log after the provider pass are those of `RenderProvider` |
| `PromptEngine.Engine.RenderPrompt` | dotfiles/.config/opencode/plugins/provider-system-prompts.ts:383-436 | the rendered text is `Render`'s; the log gains the provider pass's warnings and, only when a builtin token remains, those of fetching the builtins and of the builtin pass; only such a fetch into an empty builtin cache fills it and loads the module |
| `PromptEngine.Engine.SystemTransform` | dotfiles/.config/opencode/plugins/provider-system-prompts.ts:473-511 | `output.system` becomes `TransformSystem` of the first matching rule and the host's answers; the config dir and rule caches are those of the rule lookup; the log gains exactly the lookup's warnings, then, with a rule, those of `RewriteWarnings`; the module is loaded exactly when a rule matched and there is a system message, and the builtins are cached when the rendered template needs them |
| `PromptEngine.Engine.RewriteSystem` | dotfiles/.config/opencode/plugins/provider-system-prompts.ts:480-510 | with a matched rule, `output.system` is `TransformSystem`'s; the log gains the provider-prompt warnings and, when the guard passes, the rendering's; a system message loads the module, and a render that needs builtins caches them |
| `PromptEngine.Engine.RewriteText` | dotfiles/.config/opencode/plugins/provider-system-prompts.ts:487-510 | with the default provider prompt known, `output.system` is `TransformSystem`'s; a failed guard adds no warning and fetches nothing; otherwise the log gains the rendering's warnings and the builtins are cached when needed |
| `PromptEngine.Engine.SpliceRendered` | dotfiles/.config/opencode/plugins/provider-system-prompts.ts:495-510 | past the guard, the first element becomes the splice of the rendered template in place of the as-written prefix; the log gains the rendering's warnings; the builtin cache and module memo are those of the render's fetch, if any |
| `PromptEngine.Engine.ChatParams` | dotfiles/.config/opencode/plugins/provider-system-prompts.ts:512-552 | `output.options` becomes `ParamsOptions` of the first matching rule; when the hook returns before the lookup, the engine is unchanged; otherwise its config dir, rule caches and log are those of the lookup and the rendering, and only a render that needs builtins fetches them and loads the module |
| `PromptEngine.Engine.InstructionsFromRule` | dotfiles/.config/opencode/plugins/provider-system-prompts.ts:539-551 | no rule leaves `options` alone; a rule sets `instructions` to its template rendered with the existing instructions as the provider prompt; the config dir, caches and exact log follow the lookup and the rendering, and the builtin cache and module memo that of the render's fetch, if any |
| `Text.TrimStart` | dotfiles/.config/opencode/plugins/provider-system-prompts.ts:447 | the result is a suffix, only whitespace was removed, and it does not start with whitespace |
| `Text.TrimEnd` | dotfiles/.config/opencode/plugins/provider-system-prompts.ts:452 | the result is a prefix, only whitespace was removed, and it does not end with whitespace |
| `Text.IndexFrom` | dotfiles/.config/opencode/plugins/provider-system-prompts.ts:449 | the index found is the first occurrence at or after the start; none only when there is none |
| `Text.JoinSplit` | dotfiles/.config/opencode/plugins/provider-system-prompts.ts:438-441 | splitting and re-joining with the separator gives the text back |
| `Text.SplitPiecesClean` | dotfiles/.config/opencode/plugins/provider-system-prompts.ts:440 | no piece of a split contains the separator |
| `Text.ReplaceAllDecomposes` | dotfiles/.config/opencode/plugins/provider-system-prompts.ts:438-441 | `replaceAll` replaces every occurrence: the text is the pieces joined by the search string, the result the same pieces joined by the replacement |
| `Text.ReplaceAllAbsent` | dotfiles/.config/opencode/plugins/provider-system-prompts.ts:439 | a text without the search string is returned as is |
| `Text.NatToStringInjective` | dotfiles/.config/opencode/plugins/provider-system-prompts.ts:199 | different mtimes print differently |
| `Sorting.Sort` | dotfiles/.config/opencode/plugins/provider-system-prompts.ts:191 | the names come out in ascending order, each as often as it came in |
| `JsonMerge.MergedSpec` | dotfiles/.config/opencode/plugins/config-d.ts:16-28 | a non-object on either side gives the source; for two objects the keys are the union, a key only in the target keeps its value, a source key wins unless both values are objects, which are merged |
| `JsonMerge.MergedSelf` | dotfiles/.config/opencode/plugins/config-d.ts:16-28 | merging a value into itself gives it back |
| `JsonMerge.MergedIdempotent` | dotfiles/.config/opencode/plugins/config-d.ts:16-28 | merging the same overlay twice is merging it once |
| `JsonMerge.MergedIntoEmpty` | dotfiles/.config/opencode/plugins/config-d.ts:128-132 | an object merged into `{}` is itself |
| `JsonMerge.LeafWins` | dotfiles/.config/opencode/plugins/config-d.ts:20-25 | a non-object value of the source is found at its path in the result |
| `JsonMerge.SilentKeeps` | dotfiles/.config/opencode/plugins/config-d.ts:20-26 | where the source has nothing on a path, the target's value or absence survives |
| `JsonMerge.LaterFileWins` | dotfiles/.config/opencode/plugins/config-d.ts:128-135 | in the fold, a leaf of a file survives when every later file is silent on its path |
| `JsonMerge.MergeDeep` | dotfiles/.config/opencode/plugins/config-d.ts:16-28 | the in-place merge returns `Merged(target, source)` |
| `JsonMerge.MergeObjects` | dotfiles/.config/opencode/plugins/config-d.ts:20-27 | the loop over the source's entries leaves the fields of `Merged(target, source)` |
| `JsonMerge.MergeEntry` | dotfiles/.config/opencode/plugins/config-d.ts:21-25 | one iteration writes the merged value under its key and nothing else |
| `ConfigText.RefAt` | dotfiles/.config/opencode/plugins/config-d.ts:47 | a reference found at the start is the opening text, a non-empty name without `}`, then `}` |
| `ConfigText.RefAtOf` | dotfiles/.config/opencode/plugins/config-d.ts:47 | a well-formed reference is recognised with its full length |
| `ConfigText.SubstEnvKeepsText` | dotfiles/.config/opencode/plugins/config-d.ts:47-49 | text without `{` passes through the substitution unchanged |
| `ConfigText.SubstEnvReplacesRef` | dotfiles/.config/opencode/plugins/config-d.ts:47-49 | `{env:NAME}` becomes the variable's value, empty when unset or empty, and the scan continues after it |
| `ConfigText.SubstEnvCanLeaveRef` | dotfiles/.config/opencode/plugins/config-d.ts:47-49 | the single pass is not recursive: a reference assembled by a substitution is left in the text |
| `ConfigText.SubstEnvClears` | dotfiles/.config/opencode/plugins/config-d.ts:47-49 | when every `{` opens a reference and no value contains `{`, no `{` is left |
| `ConfigText.FileMatchesSpec` | dotfiles/.config/opencode/plugins/config-d.ts:51 | every match is a `{file:…}` reference with a non-empty path and occurs in the text |
| `ConfigText.FileMatchesNone` | dotfiles/.config/opencode/plugins/config-d.ts:51 | a text in which `{file:` does not occur has no matches |
| `ConfigText.FileMatchesFindsRef` | dotfiles/.config/opencode/plugins/config-d.ts:51 | a well-formed reference after text without `{` is the first match, followed by the matches of the text after it |
| `ConfigText.RefPathOf` | dotfiles/.config/opencode/plugins/config-d.ts:60 | stripping `{file:` and `}` gives the path back |
| `ConfigText.ResolveRefCases` | dotfiles/.config/opencode/plugins/config-d.ts:60-68 | `{file:~/rest}` is `rest` under an absolute home directory and `{file:~}` is the home directory; an absolute path is kept; any other path is taken from the config file's directory |
| `ConfigText.FirstLineWith` | dotfiles/.config/opencode/plugins/config-d.ts:56 | the line found is the first that contains the reference; none only when no line does |
| `ConfigText.UnescapeEscape` | dotfiles/.config/opencode/plugins/config-d.ts:80 | the escaped file contents decode back to the contents |
| `ConfigText.EscapeKeepsDollar` | dotfiles/.config/opencode/plugins/config-d.ts:80 | contents without quotes, backslashes or control characters are inserted as they are, `$` included |
| `ConfigText.ReplaceFirstAgrees` | dotfiles/.config/opencode/plugins/config-d.ts:80 | without `$` in the replacement, `replace` as written and the literal replacement agree |
| `ConfigText.DollarPatternsInFileContents` | dotfiles/.config/opencode/plugins/config-d.ts:80 | as written, file contents `$$` are inlined as `$` and `$&` leaves the reference in place; the literal replacement inlines `$$` |
| `ConfigText.EscapeNoDollar` | dotfiles/.config/opencode/plugins/config-d.ts:80 | the JSON escaping adds no `$` of its own |
| `ConfigText.ReplaceFirstSpec` | dotfiles/.config/opencode/plugins/config-d.ts:80 | only the first occurrence is replaced; the text around it is kept and the inserted text decodes to the contents |
| `ConfigText.SplitCount` | dotfiles/.config/opencode/plugins/config-d.ts:90-91 | a split at `\n` has one piece more than there are newlines |
| `ConfigText.SplitLast` | dotfiles/.config/opencode/plugins/config-d.ts:90-92 | the last piece is the text after the last newline |
| `ConfigText.ErrorPositionSpec` | dotfiles/.config/opencode/plugins/config-d.ts:89-94 | the line is one more than the newlines before the offset and is a line of the text; the column is one more than the length of the text between the last newline and the offset |
| `ConfigText.ConfigFromText` | dotfiles/.config/opencode/plugins/config-d.ts:46-102 | a substitution failure is the load's failure; any parse issue fails with the report of every issue; otherwise a parsed object is the config and a non-object gives exactly `{}` |
| `ConfigText.FileStepSkips` | dotfiles/.config/opencode/plugins/config-d.ts:56-59 | a reference whose first containing line is a `//` comment leaves the text alone |
| `ConfigText.FileStepReplaces` | dotfiles/.config/opencode/plugins/config-d.ts:60-80 | a readable reference is replaced at its first occurrence only, the text before and after it kept, by the escaped trimmed contents read as a `replace` pattern |
| `ConfigText.FileStepInlines` | dotfiles/.config/opencode/plugins/config-d.ts:60-80 | for contents without `$`, the escaped trimmed contents go in literally and decode back to the contents |
| `ConfigText.FileStepFails` | dotfiles/.config/opencode/plugins/config-d.ts:69-79 | a missing or unreadable file fails with the reference and the config file named, as a missing-file error exactly when the file does not exist |
| `ConfigText.LoadConfigText` | dotfiles/.config/opencode/plugins/config-d.ts:46-102 | the loop over the file references gives `ConfigFromText` |
| `ConfigD.ConfigFile` | dotfiles/.config/opencode/plugins/config-d.ts:31-44 | nothing exactly when the file does not exist; a loaded config is an object |
| `ConfigD.LoadConfigFile` | dotfiles/.config/opencode/plugins/config-d.ts:40-44 | reading and loading give `ConfigFile` |
| `ConfigD.GlobalConfigPrefersJson` | dotfiles/.config/opencode/plugins/config-d.ts:104-109 | `opencode.json` is used when present, else `opencode.jsonc`; there is no base exactly when neither exists |
| `ConfigD.LoadGlobalConfig` | dotfiles/.config/opencode/plugins/config-d.ts:104-109 | the method gives `GlobalConfig` |
| `Text.LastIndexOf` | dotfiles/.config/opencode/plugins/config-d.ts:124 | the index found holds the character and none follows it; none only when the character does not occur (used for the `.` of `path.extname` and the `/` of `path.dirname`) |
| `ConfigD.ExtNameSpec` | dotfiles/.config/opencode/plugins/config-d.ts:124 | `stem.ext` has extension `.ext`, and a dot file such as `.json` has none |
| `ConfigD.JoinAll` | dotfiles/.config/opencode/plugins/config-d.ts:126 | each name is placed under the directory, in order |
| `ConfigD.ConfigNamesMembers` | dotfiles/.config/opencode/plugins/config-d.ts:121-124 | the names kept are exactly those of regular files with a lower-cased extension `.json` or `.jsonc` |
| `ConfigD.ConfigFilesSpec` | dotfiles/.config/opencode/plugins/config-d.ts:121-126 | the folded files are those names in ascending order, under `config.d` |
| `ConfigD.FoldFiles` | dotfiles/.config/opencode/plugins/config-d.ts:128-135 | a successful fold is an object |
| `ConfigD.FoldStep` | dotfiles/.config/opencode/plugins/config-d.ts:130-133 | one step keeps an object an object |
| `ConfigD.FoldFailureSticks` | dotfiles/.config/opencode/plugins/config-d.ts:129-134 | the first failing file ends the fold with its error |
| `ConfigD.FoldAllLoaded` | dotfiles/.config/opencode/plugins/config-d.ts:128-135 | when every file loads, the overlay is the merge of the parsed objects in file order |
| `ConfigD.ConfigDLaterWins` | dotfiles/.config/opencode/plugins/config-d.ts:111-136 | a leaf of a config.d file is in the overlay when every later file is silent on its path |
| `ConfigD.ConfigDMissing` | dotfiles/.config/opencode/plugins/config-d.ts:114-117 | a missing `config.d` gives the empty overlay |
| `ConfigD.LoadConfigD` | dotfiles/.config/opencode/plugins/config-d.ts:111-136 | the loop over the files gives `ConfigDOverlay` |
| `ConfigD.MergeFile` | dotfiles/.config/opencode/plugins/config-d.ts:130-133 | one iteration gives `FoldStep` |
| `ConfigD.HookOutcomeSpec` | dotfiles/.config/opencode/plugins/config-d.ts:139-151 | without a base config, or with an empty overlay, the config is unchanged; a success keeps every key; a change adds the overlay's keys and every overlay leaf is found at its path |
| `ConfigD.ConfigHook` | dotfiles/.config/opencode/plugins/config-d.ts:139-151 | a failure leaves the config unchanged; a success leaves the fields `HookOutcome` gives |
| `AgentInstructions.FirstExistingSpec` | dotfiles/.config/opencode/plugins/agent-instructions.ts:48-58 | the search finds a text exactly when some path holds it and every earlier path is missing, and finds nothing exactly when every path is missing |
| `AgentInstructions.LookupPriority` | dotfiles/.config/opencode/plugins/agent-instructions.ts:30-58 | the project file wins when it exists; the global file is used only when the project file is missing; neither gives nothing; an unreadable existing file fails |
| `AgentInstructions.SecondLoadHits` | dotfiles/.config/opencode/plugins/agent-instructions.ts:26-28 | a second load of an agent answers from the cache with what the first reported, a miss included, whatever the file system then holds, and leaves the cache as it is |
| `AgentInstructions.AppendOnly` | dotfiles/.config/opencode/plugins/agent-instructions.ts:78-81 | the old elements are kept and one element is added exactly for non-empty instructions, as the last element |
| `AgentInstructions.FindUserSpec` | dotfiles/.config/opencode/plugins/agent-instructions.ts:70-72 | `find` returns the first user message, and nothing only when there is none |
| `AgentInstructions.LastUserMessageSpec` | dotfiles/.config/opencode/plugins/agent-instructions.ts:70-73 | reversing then finding gives the latest user message in list order, and nothing only when there is none |
| `AgentInstructions.HookAgentSpec` | dotfiles/.config/opencode/plugins/agent-instructions.ts:63-76 | no session id, no or empty message list, or no user message give no agent; an agent is non-empty and is that of the latest user message |
| `AgentInstructions.InstructionLoader.constructor` | dotfiles/.config/opencode/plugins/agent-instructions.ts:19-23 | the plugin starts with an empty cache and nothing probed |
| `AgentInstructions.InstructionLoader.LoadInstructions` | dotfiles/.config/opencode/plugins/agent-instructions.ts:25-59 | a cached agent is answered from the cache without probing any path; otherwise the paths are probed in order up to the first that exists, and its text or the miss is cached |
| `AgentInstructions.InstructionLoader.SystemTransform` | dotfiles/.config/opencode/plugins/agent-instructions.ts:62-82 | the agent is taken from the session messages of this call; without an agent nothing changes; otherwise the agent's instructions are loaded and, when non-empty, appended as the last element of `output.system` |

## Left out

- YAML and JSONC parsing (`yaml`'s `parse`, `jsonc-parser`'s `parse` and `printParseErrorCode`) are third-party libraries. They enter as functions from text to a parsed document, and a parse error carries its code as text.
- JavaScript regular expressions are an oracle that says whether a pattern compiles with given flags and what it matches. The `lastIndex` state of a `g` or `y` regex between `test` calls is not modelled.
- The host's `SystemPrompt` module is a fixed set of functions: `provider` and the builtin getters give the same answer on every call. A cached builtin therefore equals a fresh one, and the caches show only in the log and the import count.
- Promise memoisation and concurrent callers are not modelled: the model is sequential. The memoised `SystemPrompt` import is a field set once, with a ghost count of import probes.
- `client.app.log` becomes appending the warning key to a log. The message texts and the best-effort asynchronous send are left out.
- `client.path.get`, the dynamic `import()` probing, `client.session.messages` and `os.homedir()` are parameters. `client.path.get` and `client.session.messages` are arguments of each hook call. A `client.session.messages` call that throws is not modelled.
- `process.env` is a map from names to values.
- The file system is a map of directory listings, file contents or read failures, and mtimes. This includes `fs.readdir`, `fs.stat`, `fs.readFile` and `Bun.file`. Error codes other than "missing" become one "failed" case. A path that names a directory is not a file.
- mtimes are natural numbers; fractional `mtimeMs` values are not modelled.
- `path.join`, `path.resolve` and `path.dirname` join with `/` and do not normalise `.`, `..` or repeated slashes. `path.isAbsolute` is a leading `/`.
- Whitespace for `trim`, `trimStart` and `trimEnd` is space, tab, newline, carriage return, vertical tab, form feed, no-break space and the byte-order mark; the other Unicode spaces are not modelled. 
- `toLowerCase` is ASCII only.
- `Sorting.Sort`: orders names by Unicode code point, while `sort()` compares UTF-16 code units. The two orders differ only for names holding characters above U+FFFF, and strings here are sequences of code points.
- `ConfigText.ErrorPositionSpec`: `length` and the error column count characters here, where JavaScript counts UTF-16 code units. They differ for characters above U+FFFF.
- JSON numbers are integers. The key order of objects, `__proto__` keys and the escaping of lone surrogates by `JSON.stringify` are not modelled.
- `JsonMerge.MergeDeep`: it is modelled on values. The source writes into the target object and its nested objects in place, so later updates are shared with anything else holding those objects. Arrays copied with `slice()` have the same value in the model.
- `ConfigD.ConfigHook`: the host's config object is one class whose fields map is replaced as a whole. Nested objects shared with other code are not modelled.

## Findings

| source | as written | input that shows it | evidently intended | confidence | as-written member | corrected member |
|---|---|---|---|---|---|---|
| dotfiles/.config/opencode/plugins/provider-system-prompts.ts:505-509 | `defaultProviderPrompt ?? split?.prefix ?? ""` keeps a blank default prompt, which is a string, so the prefix cut is empty even though the guard at 491-492 accepted the text for its non-empty marker prefix | the host's provider prompt is whitespace only, so `getDefaultProviderPrompt` gives `""` and the system text is `P\nYou are powered by the model named M` | the marker-split prefix `P` is replaced when the default prompt is empty, as the guard assumes | not executed | `PromptRender.ProviderPrefixAsWritten` (shown by `PromptRender.BlankDefaultKeepsPrefix`; used by `PromptRender.TransformSystem`) | `PromptRender.ProviderPrefix` (proved by `PromptRender.CorrectedPrefixSpec`) |
| dotfiles/.config/opencode/plugins/config-d.ts:80 | `working.replace(match, text)` treats `$$`, `$&`, `` $` `` and `$'` in the inlined text as replacement patterns | a referenced file containing `$$` is inlined as `$`; one containing `$&` inlines the `{file:…}` reference itself | the escaped file contents are inserted literally | not executed | `ConfigText.ReplaceFirstAsWritten` (shown by `ConfigText.DollarPatternsInFileContents`; used by `ConfigText.FileStep`) | `ConfigText.ReplaceFirst` (proved by `ConfigText.ReplaceFirstSpec`) |
