/**
 * The mutable side of provider-system-prompts.ts: the plugin closure's caches
 * (`markdownCache`, `regexCache`, `warned`, the `SystemPrompt` module memo,
 * `builtinsCache`, `globalConfigDir`) as the fields of one object, the
 * functions that update them as its methods, and the two hooks.
 *
 * Each method is tied to the value-level definitions of PromptRules and
 * PromptRender: the invariant `Valid` makes the module memo and the builtin
 * cache transparent (they only ever hold what the host would answer), keeps
 * every warning key logged once, and records that each regex cache key is
 * compiled at most once. The config-dir memo keeps the first call's answer.
 */
module PromptEngine {
  import opened Wrappers
  import opened Text
  import opened FileSystem
  import opened PromptRules
  import opened PromptRender

  // ----- warnOnce -----

  /** The log after `warnOnce(key)`: the key is appended unless it was logged before. */
  function Warn(log: seq<string>, key: string): seq<string> {
    if key in log then log else log + [key]
  }

  /** The log after `warnOnce` for each key in turn. */
  function WarnAll(log: seq<string>, keys: seq<string>): seq<string>
    decreases |keys|
  {
    if |keys| == 0 then log else Warn(WarnAll(log, keys[..|keys| - 1]), keys[|keys| - 1])
  }

  predicate NoDuplicates(s: seq<string>) {
    forall i, j :: 0 <= i < j < |s| ==> s[i] != s[j]
  }

  /**
   * Warning is append-only and at most once per key: the old log is a prefix
   * of the new one, no key appears twice, and the logged keys are the old
   * ones plus the warned ones.
   */
  lemma {:induction false} WarnAllSpec(log: seq<string>, keys: seq<string>)
    requires NoDuplicates(log)
    ensures var r := WarnAll(log, keys);
      && log <= r && NoDuplicates(r)
      && forall k :: k in r <==> k in log || k in keys
    decreases |keys|
  {
    if |keys| > 0 {
      var init := keys[..|keys| - 1];
      WarnAllSpec(log, init);
      assert forall k :: k in keys <==> k in init || k == keys[|keys| - 1];
    }
  }

  lemma {:induction false} WarnAllAppend(log: seq<string>, a: seq<string>, b: seq<string>)
    ensures WarnAll(log, a + b) == WarnAll(WarnAll(log, a), b)
    decreases |b|
  {
    if |b| == 0 {
      assert a + b == a;
    } else {
      assert (a + b)[..|a + b| - 1] == a + b[..|b| - 1];
      WarnAllAppend(log, a, b[..|b| - 1]);
    }
  }

  lemma WarnAllOne(log: seq<string>, key: string)
    ensures WarnAll(log, [key]) == Warn(log, key)
  {
    assert [key][..0] == [];
  }

  // ----- What the host answers -----

  /** `client.path.get()` throws, or answers with a `config` that is a string or not. */
  datatype PathAnswer = PathThrew | PathData(config: Option<string>)

  /** The directory `resolveGlobalConfigDir` settles on: a non-empty answer, else `~/.config/opencode`. */
  function GlobalDirFrom(answer: PathAnswer, home: string): string {
    if answer.PathData? && answer.config.Some? && answer.config.value != "" then answer.config.value
    else PathJoin(PathJoin(home, ".config"), "opencode")
  }

  /** The directory a call of `resolveGlobalConfigDir` returns: the memo once set, else what this answer gives. */
  function ResolvedDir(memo: Option<string>, answer: PathAnswer, home: string): string {
    if memo.Some? then memo.value else GlobalDirFrom(answer, home)
  }

  function RulesDir(globalDir: string): string {
    PathJoin(globalDir, "provider-system-prompts")
  }

  function DirWarnings(firstResolve: bool, answer: PathAnswer): seq<string> {
    if firstResolve && answer.PathThrew? then ["global-config-dir"] else []
  }

  function ImportWarnings(firstLoad: bool, m: Option<SystemPromptModule>): seq<string> {
    if firstLoad && m.None? then ["systemprompt-import"] else []
  }

  /** The warnings of `getBuiltinPrompts`, given whether the builtins and the module were cached. */
  function FetchWarnings(cached: bool, firstLoad: bool, importer: string -> ImportResult): seq<string> {
    if cached then []
    else
      var failed := if HostModule(importer).Some? && HostBuiltins(importer).None? then ["builtin-prompts"] else [];
      ImportWarnings(firstLoad, HostModule(importer)) + failed
  }

  function ProviderWarnings(firstLoad: bool, importer: string -> ImportResult, model: Option<ModelInfo>): seq<string> {
    ImportWarnings(firstLoad, HostModule(importer))
      + (if HostModule(importer).Some? && HostModule(importer).value.provider(model).Threw? then ["provider-prompt"]
         else [])
  }

  /**
   * The warnings of `renderPrompt`: the provider pass's, then, only when a
   * builtin token remains, those of fetching the builtins and of the builtin
   * pass.
   */
  function RenderWarnings(template: string, systemText: Option<string>, defaultPrompt: Option<string>, cached: bool,
                          firstLoad: bool, importer: string -> ImportResult): seq<string>
  {
    var p := RenderProvider(template, defaultPrompt, systemText);
    p.warnings + (if NeedsBuiltins(p.text)
                  then FetchWarnings(cached, firstLoad, importer)
                       + SubstituteBuiltins(p.text, HostBuiltins(importer), BuiltinKeys).warnings
                  else [])
  }

  /**
   * The warnings of the system transform once a rule has matched: none for
   * an empty `output.system`; else those of fetching the default provider
   * prompt and, when the guard passes, those of rendering the template.
   */
  function RewriteWarnings(system: seq<string>, template: string, model: Option<ModelInfo>, cached: bool,
                           firstLoad: bool, importer: string -> ImportResult): seq<string>
  {
    if |system| == 0 then []
    else
      var d := HostDefaultPrompt(importer, model);
      ProviderWarnings(firstLoad, importer, model)
        + (if TransformApplies(system[0], d) then RenderWarnings(template, Some(system[0]), d, cached, false, importer)
           else [])
  }

  /** Whether `renderPrompt` fetches the builtins: a builtin token is left after the provider pass. */
  predicate RenderFetches(template: string, systemText: Option<string>, defaultPrompt: Option<string>) {
    NeedsBuiltins(RenderProvider(template, defaultPrompt, systemText).text)
  }

  /** Whether the system transform, once a rule has matched, renders a template that fetches the builtins. */
  predicate RewriteFetches(system: seq<string>, template: string, model: Option<ModelInfo>,
                           importer: string -> ImportResult)
  {
    var d := HostDefaultPrompt(importer, model);
    |system| > 0 && TransformApplies(system[0], d) && RenderFetches(template, Some(system[0]), d)
  }

  /** The builtin cache after a call that does or does not fetch the builtins: a fetch fills an empty cache. */
  function BuiltinsAfter(fetches: bool, cache: Option<Builtins>, importer: string -> ImportResult): Option<Builtins> {
    if fetches && cache.None? then HostBuiltins(importer) else cache
  }

  /** The module memo after a call that may fetch the builtins: only a fetch into an empty cache loads the module. */
  function ModuleAfter(fetches: bool, cache: Option<Builtins>, memo: Option<Option<SystemPromptModule>>,
                       importer: string -> ImportResult): Option<Option<SystemPromptModule>>
  {
    if fetches && cache.None? then Some(HostModule(importer)) else memo
  }

  /** The cache keys of a sequence of compiled `(pattern, flags)` pairs. */
  function Keys(compiled: seq<(string, string)>): (r: seq<string>)
    ensures |r| == |compiled| && forall i :: 0 <= i < |r| ==> r[i] == RegexKey(compiled[i].0, compiled[i].1)
  {
    seq(|compiled|, i requires 0 <= i < |compiled| => RegexKey(compiled[i].0, compiled[i].1))
  }

  /** The regex cache holds exactly the compiled keys, each compiled once, each with its compilation's outcome. */
  ghost predicate CacheMatches(cache: RegexCache, compiled: seq<(string, string)>, regex: RegexOracle) {
    && NoDuplicates(Keys(compiled))
    && (forall k :: k in cache <==> k in Keys(compiled))
    && (forall i :: 0 <= i < |compiled| ==> cache[Keys(compiled)[i]] == Compile(regex, compiled[i].0, compiled[i].1))
  }

  /** Compiling a key not yet cached, and caching its outcome, keeps the cache matched. */
  lemma CacheMatchesExtend(cache: RegexCache, compiled: seq<(string, string)>, regex: RegexOracle,
                           pattern: string, flags: string)
    requires CacheMatches(cache, compiled, regex) && RegexKey(pattern, flags) !in cache
    ensures CacheMatches(cache[RegexKey(pattern, flags) := Compile(regex, pattern, flags)],
                         compiled + [(pattern, flags)], regex)
  {
    assert Keys(compiled + [(pattern, flags)]) == Keys(compiled) + [RegexKey(pattern, flags)];
  }

  /** `output.system` of the system transform */
  class SystemOutput {
    var system: seq<string>

    constructor (system: seq<string>)
      ensures this.system == system
    {
      this.system := system;
    }
  }

  /** `output.options` of `chat.params`: `None` when it is not an object, else its `instructions` property. */
  class ParamsOutput {
    var options: Option<Prop>

    constructor (options: Option<Prop>)
      ensures this.options == options
    {
      this.options := options;
    }
  }

  class Engine {
    const regex: RegexOracle
    const yaml: string -> YamlDoc
    const importer: string -> ImportResult
    const home: string

    var markdownCache: map<string, CacheEntry>
    var regexCache: RegexCache
    var warned: set<string>
    /** The warning keys in the order they were logged. */
    var log: seq<string>
    /** `systemPromptModulePromise`: `None` before the first load. */
    var moduleMemo: Option<Option<SystemPromptModule>>
    var builtinsCache: Option<Builtins>
    var globalConfigDir: Option<string>
    /** Every `new RegExp` attempt, in order. */
    ghost var compiled: seq<(string, string)>
    /** How many times the import probe ran. */
    ghost var imports: nat

    /** Every warned key is logged, once. */
    ghost predicate LogValid()
      reads this`warned, this`log
    {
      (forall k :: k in warned <==> k in log) && NoDuplicates(log)
    }

    ghost predicate RegexValid()
      reads this`regexCache, this`compiled
    {
      CacheMatches(regexCache, compiled, regex)
    }

    /** The module memo and the builtin cache hold only what the host answers, and the import probe runs at most once. */
    ghost predicate HostValid()
      reads this`moduleMemo, this`imports, this`builtinsCache
    {
      && imports == (if moduleMemo.Some? then 1 else 0)
      && (moduleMemo.Some? ==> moduleMemo.value == HostModule(importer))
      && (builtinsCache.Some? ==> builtinsCache == HostBuiltins(importer))
    }

    ghost predicate Valid()
      reads this
    {
      LogValid() && RegexValid() && HostValid()
    }

    constructor (regex: RegexOracle, yaml: string -> YamlDoc, importer: string -> ImportResult, home: string)
      ensures Valid()
      ensures this.regex == regex && this.yaml == yaml && this.importer == importer && this.home == home
      ensures markdownCache == map[] && regexCache == map[] && log == [] && compiled == []
      ensures moduleMemo.None? && builtinsCache.None? && globalConfigDir.None?
    {
      this.regex := regex;
      this.yaml := yaml;
      this.importer := importer;
      this.home := home;
      markdownCache := map[];
      regexCache := map[];
      warned := {};
      log := [];
      moduleMemo := None;
      builtinsCache := None;
      globalConfigDir := None;
      compiled := [];
      imports := 0;
    }

    /** `warnOnce`: the message for a key is logged the first time only. */
    method WarnOnce(key: string)
      requires Valid()
      modifies this`warned, this`log
      ensures Valid() && log == Warn(old(log), key)
    {
      if key in warned {
        return;
      }
      warned := warned + {key};
      log := log + [key];
    }

    /**
     * `resolveGlobalConfigDir`, where `answer` is what `client.path.get()`
     * does during this call: the first call settles the directory, and every
     * later call returns it whatever the host answers then.
     */
    method ResolveGlobalConfigDir(answer: PathAnswer) returns (dir: string)
      requires Valid()
      modifies this`globalConfigDir, this`warned, this`log
      ensures Valid() && dir == ResolvedDir(old(globalConfigDir), answer, home) && globalConfigDir == Some(dir)
      ensures old(globalConfigDir).Some? ==> dir == old(globalConfigDir).value && log == old(log)
      ensures old(globalConfigDir).None? ==> dir == GlobalDirFrom(answer, home)
      ensures log == WarnAll(old(log), DirWarnings(old(globalConfigDir).None?, answer))
    {
      if globalConfigDir.Some? {
        return globalConfigDir.value;
      }
      if answer.PathThrew? {
        WarnOnce("global-config-dir");
        WarnAllOne(old(log), "global-config-dir");
      } else if answer.config.Some? && answer.config.value != "" {
        dir := answer.config.value;
        globalConfigDir := Some(dir);
        return;
      }
      dir := PathJoin(PathJoin(home, ".config"), "opencode");
      globalConfigDir := Some(dir);
    }

    /** `loadSystemPromptModule`: the import probe runs once; later calls return the memo. */
    method LoadSystemPromptModule() returns (m: Option<SystemPromptModule>)
      requires Valid()
      modifies this`moduleMemo, this`imports, this`warned, this`log
      ensures Valid() && m == HostModule(importer) && moduleMemo == Some(m) && imports == 1
      ensures log == WarnAll(old(log), ImportWarnings(old(moduleMemo).None?, m))
    {
      if moduleMemo.Some? {
        return moduleMemo.value;
      }
      m := None;
      var i := 0;
      while i < |Specifiers|
        invariant 0 <= i <= |Specifiers| && m.None?
        invariant FirstUsable(importer, Specifiers) == FirstUsable(importer, Specifiers[i..])
      {
        var probe := importer(Specifiers[i]);
        if probe.Imported? && probe.complete {
          m := Some(probe.loaded);
          break;
        }
        assert Specifiers[i..][1..] == Specifiers[i + 1..];
        i := i + 1;
      }
      moduleMemo := Some(m);
      imports := imports + 1;
      if m.None? {
        WarnOnce("systemprompt-import");
        WarnAllOne(old(log), "systemprompt-import");
      }
    }

    /** `getBuiltinPrompts`: computed once from the module, then served from the cache; a throwing call is not cached. */
    method GetBuiltinPrompts() returns (b: Option<Builtins>)
      requires Valid()
      modifies this`builtinsCache, this`moduleMemo, this`imports, this`warned, this`log
      ensures Valid() && b == HostBuiltins(importer)
      ensures builtinsCache == (if old(builtinsCache).Some? then old(builtinsCache) else b)
      ensures old(builtinsCache).Some? ==> moduleMemo == old(moduleMemo)
      ensures old(builtinsCache).None? ==> moduleMemo == Some(HostModule(importer))
      ensures log == WarnAll(old(log), FetchWarnings(old(builtinsCache).Some?, old(moduleMemo).None?, importer))
    {
      if builtinsCache.Some? {
        return builtinsCache;
      }
      var m := LoadSystemPromptModule();
      if m.None? {
        return None;
      }
      b := BuiltinsFrom(m.value);
      ghost var mid := log;
      if b.None? {
        WarnOnce("builtin-prompts");
        WarnAllOne(mid, "builtin-prompts");
      } else {
        builtinsCache := b;
      }
      WarnAllAppend(old(log), ImportWarnings(old(moduleMemo).None?, m),
                    if b.None? then ["builtin-prompts"] else []);
    }

    /** `getDefaultProviderPrompt(model)`: the host's provider prompt for the model, trimmed, or `None`. */
    method GetDefaultProviderPrompt(model: Option<ModelInfo>) returns (p: Option<string>)
      requires Valid()
      modifies this`moduleMemo, this`imports, this`warned, this`log
      ensures Valid() && p == HostDefaultPrompt(importer, model) && moduleMemo == Some(HostModule(importer))
      ensures log == WarnAll(old(log), ProviderWarnings(old(moduleMemo).None?, importer, model)) && old(log) <= log
    {
      var m := LoadSystemPromptModule();
      if m.None? {
        return None;
      }
      ghost var mid := log;
      match m.value.provider(model)
      case Threw =>
        WarnOnce("provider-prompt");
        WarnAllOne(mid, "provider-prompt");
        p := None;
      case Returned(v) =>
        p := Coerce(v);
      WarnAllAppend(old(log), ImportWarnings(old(moduleMemo).None?, m),
                    if m.value.provider(model).Threw? then ["provider-prompt"] else []);
      WarnAllSpec(old(log), ProviderWarnings(old(moduleMemo).None?, importer, model));
    }

    /**
     * `getCachedRegex`: a key seen before is answered from the cache (a cached
     * failure included) without compiling or warning; otherwise the pair is
     * compiled once and the outcome, success or failure, is cached.
     */
    method GetCachedRegex(pattern: string, flags: string, path: string) returns (r: Option<Regex>)
      requires Valid()
      modifies this`regexCache, this`compiled, this`warned, this`log
      ensures Valid()
      ensures r == CachedRegex(old(regexCache), regex, pattern, flags)
      ensures regexCache == old(regexCache)[RegexKey(pattern, flags) := r]
      ensures compiled == old(compiled) + (if RegexKey(pattern, flags) in old(regexCache) then [] else [(pattern, flags)])
      ensures log == WarnAll(old(log), if RegexKey(pattern, flags) !in old(regexCache) && r.None?
                                       then ["invalid-regex:" + path + ":0:0"] else [])
    {
      var key := RegexKey(pattern, flags);
      if key in regexCache {
        r := regexCache[key];
        assert regexCache[key := r] == regexCache;
        return;
      }
      r := Compile(regex, pattern, flags);
      CacheMatchesExtend(regexCache, compiled, regex, pattern, flags);
      regexCache := regexCache[key := r];
      compiled := compiled + [(pattern, flags)];
      if r.None? {
        WarnOnce("invalid-regex:" + path + ":0:0");
        WarnAllOne(old(log), "invalid-regex:" + path + ":0:0");
      }
    }

    /** `parseMarkdownRuleFile`, in the source's order: read, split, YAML, then the header checks. */
    method ParseMarkdownRuleFile(path: string, fs: Fs) returns (r: Option<Rule>)
      requires Valid()
      modifies this`regexCache, this`compiled, this`warned, this`log
      ensures Valid()
      ensures var out := ParseRuleFile(path, ReadFile(fs, path), yaml, regex, old(regexCache));
        r == out.rule && regexCache == out.cache && log == WarnAll(old(log), out.warnings)
    {
      var read := ReadFile(fs, path);
      if read.NotFound? {
        return None;
      }
      if read.ReadFailed? {
        WarnOnce("markdown-read:" + path);
        WarnAllOne(old(log), "markdown-read:" + path);
        return None;
      }
      r := ParseRuleText(path, read.text);
    }

    /** `parseMarkdownRuleFile` once the file is read: split, YAML, then the header checks. */
    method ParseRuleText(path: string, text: string) returns (r: Option<Rule>)
      requires Valid()
      modifies this`regexCache, this`compiled, this`warned, this`log
      ensures Valid()
      ensures var out := PromptRules.ParseRuleText(path, text, yaml, regex, old(regexCache));
        r == out.rule && regexCache == out.cache && log == WarnAll(old(log), out.warnings)
    {
      var split := SplitFrontmatter(text);
      if split.None? {
        WarnOnce("missing-frontmatter:" + path);
        WarnAllOne(old(log), "missing-frontmatter:" + path);
        return None;
      }
      r := ParseSections(path, split.value);
    }

    /** The YAML step of `parseMarkdownRuleFile`, on the frontmatter and body already split apart. */
    method ParseSections(path: string, sections: Sections) returns (r: Option<Rule>)
      requires Valid()
      modifies this`regexCache, this`compiled, this`warned, this`log
      ensures Valid()
      ensures var out := PromptRules.ParseSections(path, sections, yaml, regex, old(regexCache));
        r == out.rule && regexCache == out.cache && log == WarnAll(old(log), out.warnings)
    {
      var doc := yaml(sections.frontmatter);
      if doc.Malformed? {
        WarnOnce("invalid-yaml:" + path);
        WarnAllOne(old(log), "invalid-yaml:" + path);
        return None;
      }
      r := RuleFromMeta(path, MetaOf(doc), StripLeadingNewline(sections.body));
    }

    /** The header checks of `parseMarkdownRuleFile`, and the regex lookup for a `modelRegex` rule. */
    method RuleFromMeta(path: string, meta: Meta, prompt: string) returns (r: Option<Rule>)
      requires Valid()
      modifies this`regexCache, this`compiled, this`warned, this`log
      ensures Valid()
      ensures var out := RuleFromHeader(path, meta, prompt, regex, old(regexCache));
        r == out.rule && regexCache == out.cache && log == WarnAll(old(log), out.warnings)
    {
      var verdict := CheckHeader(meta, path);
      ghost var out := RuleFromHeader(path, meta, prompt, regex, old(regexCache));
      if verdict.Disabled? {
        assert out == FileOutcome(None, [], old(regexCache));
        return None;
      }
      assert meta.enabled != YBool(false);
      ghost var ew := if EnabledWarns(meta) then ["invalid-enabled:" + path] else [];
      if EnabledWarns(meta) {
        WarnOnce("invalid-enabled:" + path);
        WarnAllOne(old(log), "invalid-enabled:" + path);
      }
      ghost var mid := log;
      if verdict.Rejected? {
        assert out == FileOutcome(None, ew + [verdict.warning], old(regexCache));
        WarnOnce(verdict.warning);
        WarnAllOne(mid, verdict.warning);
        WarnAllAppend(old(log), ew, [verdict.warning]);
        return None;
      }
      match verdict.spec
      case ExactModel(model) =>
        assert out == FileOutcome(Some(Rule(Exact(model), prompt)), ew, old(regexCache));
        r := Some(Rule(Exact(model), prompt));
      case ModelPattern(pattern, flags) =>
        var re := GetCachedRegex(pattern, flags, path);
        ghost var rw := if RegexKey(pattern, flags) !in old(regexCache) && re.None?
                        then ["invalid-regex:" + path + ":0:0"] else [];
        assert out.rule == (if re.Some? then Some(Rule(Pattern(re.value), prompt)) else None);
        assert out.cache == regexCache;
        assert out.warnings == ew + rw;
        WarnAllAppend(old(log), ew, rw);
        if re.None? {
          return None;
        }
        r := Some(Rule(Pattern(re.value), prompt));
    }

    /** The stat signature of the rule files, built part by part. */
    method ComputeSignature(dir: string, names: seq<string>, fs: Fs) returns (signature: string)
      ensures signature == DirSignature(fs, dir, names)
    {
      ghost var mtimes := MtimesOf(fs, dir, names);
      var parts: seq<string> := [];
      var i := 0;
      while i < |names|
        invariant 0 <= i <= |names|
        invariant parts == SignatureParts(names[..i], mtimes[..i])
      {
        parts := parts + [SignaturePart(names[i], Stat(fs, PathJoin(dir, names[i])))];
        i := i + 1;
      }
      assert names[..i] == names && mtimes[..i] == mtimes;
      signature := Join(parts, "|");
    }

    /** The collecting loop: each file parsed in turn, its rule (if any) appended. */
    method CollectRules(dir: string, names: seq<string>, fs: Fs) returns (collected: seq<Rule>)
      requires Valid()
      modifies this`regexCache, this`compiled, this`warned, this`log
      ensures Valid()
      ensures var c := ParseFiles(dir, names, fs, yaml, regex, old(regexCache));
        collected == c.rules && regexCache == c.cache && log == WarnAll(old(log), c.warnings)
    {
      collected := [];
      var i := 0;
      while i < |names|
        invariant 0 <= i <= |names| && Valid()
        invariant var c := ParseFiles(dir, names[..i], fs, yaml, regex, old(regexCache));
          collected == c.rules && regexCache == c.cache && log == WarnAll(old(log), c.warnings)
      {
        ghost var before := ParseFiles(dir, names[..i], fs, yaml, regex, old(regexCache));
        assert names[..i + 1][..i] == names[..i];
        var path := PathJoin(dir, names[i]);
        var parsed := ParseMarkdownRuleFile(path, fs);
        if parsed.Some? {
          collected := collected + [parsed.value];
        }
        WarnAllAppend(old(log), before.warnings, ParseRuleFile(path, ReadFile(fs, path), yaml, regex, before.cache).warnings);
        i := i + 1;
      }
      assert names[..i] == names;
    }

    /**
     * `loadMarkdownRulesFromDir`: list the directory, build the stat
     * signature, answer from the cache when the signature is unchanged, and
     * otherwise parse every rule file in order and replace the cache entry.
     */
    method LoadMarkdownRulesFromDir(dir: string, fs: Fs) returns (r: Option<seq<Rule>>)
      requires Valid()
      modifies this`markdownCache, this`regexCache, this`compiled, this`warned, this`log
      ensures Valid()
      ensures var out := LoadDir(dir, fs, yaml, regex, old(markdownCache), old(regexCache));
        && r == out.rules && markdownCache == out.markdownCache && regexCache == out.regexCache
        && log == WarnAll(old(log), out.warnings)
    {
      var listing := ReadDir(fs, dir);
      ghost var out := LoadDir(dir, fs, yaml, regex, markdownCache, regexCache);
      if listing.NoDir? {
        assert out == DirLoad(None, markdownCache, regexCache, []);
        return None;
      }
      if listing.ListFailed? {
        assert out == DirLoad(None, markdownCache, regexCache, ["markdown-dir:" + dir]);
        WarnOnce("markdown-dir:" + dir);
        WarnAllOne(old(log), "markdown-dir:" + dir);
        return None;
      }
      var names := MarkdownFiles(listing.entries);
      if |names| == 0 {
        assert out == DirLoad(None, markdownCache, regexCache, []);
        return None;
      }
      r := LoadRuleFiles(dir, names, fs);
    }

    /** The signature check and, on a change, the reparse of the listed rule files. */
    method LoadRuleFiles(dir: string, names: seq<string>, fs: Fs) returns (r: Option<seq<Rule>>)
      requires Valid()
      modifies this`markdownCache, this`regexCache, this`compiled, this`warned, this`log
      ensures Valid()
      ensures var out := LoadNames(dir, names, fs, yaml, regex, old(markdownCache), old(regexCache));
        && r == out.rules && markdownCache == out.markdownCache && regexCache == out.regexCache
        && log == WarnAll(old(log), out.warnings)
    {
      var signature := ComputeSignature(dir, names, fs);
      if dir in markdownCache && markdownCache[dir].signature == signature {
        return markdownCache[dir].rules;
      }
      var collected := CollectRules(dir, names, fs);
      r := if |collected| > 0 then Some(collected) else None;
      markdownCache := markdownCache[dir := CacheEntry(signature, r)];
    }

    /** `findMatchingRule`: the first rule of the global rules directory that matches the key. */
    method FindMatchingRule(key: string, answer: PathAnswer, fs: Fs) returns (r: Option<Rule>)
      requires Valid()
      modifies this`globalConfigDir, this`markdownCache, this`regexCache, this`compiled, this`warned, this`log
      ensures Valid() && globalConfigDir == Some(ResolvedDir(old(globalConfigDir), answer, home)) && old(log) <= log
      ensures var out := LoadDir(RulesDir(ResolvedDir(old(globalConfigDir), answer, home)), fs, yaml, regex,
                                 old(markdownCache), old(regexCache));
        && r == MatchRule(out.rules, key, regex) && markdownCache == out.markdownCache && regexCache == out.regexCache
        && log == WarnAll(old(log), DirWarnings(old(globalConfigDir).None?, answer) + out.warnings)
    {
      var dir := ResolveGlobalConfigDir(answer);
      var rules := LoadMarkdownRulesFromDir(RulesDir(dir), fs);
      ghost var keys := DirWarnings(old(globalConfigDir).None?, answer)
        + LoadDir(RulesDir(dir), fs, yaml, regex, old(markdownCache), old(regexCache)).warnings;
      WarnAllAppend(old(log), DirWarnings(old(globalConfigDir).None?, answer),
                    LoadDir(RulesDir(dir), fs, yaml, regex, old(markdownCache), old(regexCache)).warnings);
      WarnAllSpec(old(log), keys);
      r := MatchRule(rules, key, regex);
    }

    /** The builtin pass of `renderPrompt`: each key in order whose token is present is replaced. */
    method SubstituteBuiltinTokens(input: string, b: Option<Builtins>) returns (text: string)
      requires Valid()
      modifies this`warned, this`log
      ensures Valid()
      ensures var s := SubstituteBuiltins(input, b, BuiltinKeys); text == s.text && log == WarnAll(old(log), s.warnings)
    {
      text := input;
      var i := 0;
      while i < |BuiltinKeys|
        invariant 0 <= i <= |BuiltinKeys| && Valid()
        invariant var s := SubstituteBuiltins(input, b, BuiltinKeys[..i]); text == s.text && log == WarnAll(old(log), s.warnings)
      {
        ghost var before := SubstituteBuiltins(input, b, BuiltinKeys[..i]);
        var key := BuiltinKeys[i];
        var token := BuiltinToken(key);
        assert BuiltinKeys[..i + 1][..i] == BuiltinKeys[..i];
        if Contains(text, token) {
          var value := BuiltinValue(b, key);
          ghost var mid := log;
          if value == "" {
            WarnOnce("builtin-placeholder:" + key);
            WarnAllOne(mid, "builtin-placeholder:" + key);
          }
          WarnAllAppend(old(log), before.warnings, if value == "" then ["builtin-placeholder:" + key] else []);
          text := ReplaceAll(text, token, value);
        }
        i := i + 1;
      }
      assert BuiltinKeys[..i] == BuiltinKeys;
    }

    /** The provider pass of `renderPrompt`: the placeholder is filled, with a warning when its value is empty. */
    method ProviderPass(template: string, systemText: Option<string>, defaultPrompt: Option<string>)
      returns (text: string)
      requires Valid()
      modifies this`warned, this`log
      ensures Valid()
      ensures var p := RenderProvider(template, defaultPrompt, systemText); text == p.text && log == WarnAll(old(log), p.warnings)
    {
      text := template;
      if Contains(text, ProviderToken) {
        var value := ProviderValue(defaultPrompt, systemText);
        if value == "" {
          WarnOnce("provider-placeholder");
          WarnAllOne(old(log), "provider-placeholder");
        }
        text := ReplaceAll(text, ProviderToken, value);
      }
    }

    /** `renderPrompt`: the provider pass, then (fetching the builtins only if needed) the builtin pass. */
    method RenderPrompt(template: string, systemText: Option<string>, defaultPrompt: Option<string>)
      returns (text: string)
      requires Valid()
      modifies this`builtinsCache, this`moduleMemo, this`imports, this`warned, this`log
      ensures Valid() && text == Render(template, defaultPrompt, systemText, HostBuiltins(importer)).text
      ensures old(log) <= log
      ensures log == WarnAll(old(log), RenderWarnings(template, systemText, defaultPrompt, old(builtinsCache).Some?,
                                                      old(moduleMemo).None?, importer))
      ensures var fetches := RenderFetches(template, systemText, defaultPrompt);
        && builtinsCache == BuiltinsAfter(fetches, old(builtinsCache), importer)
        && moduleMemo == ModuleAfter(fetches, old(builtinsCache), old(moduleMemo), importer)
    {
      ghost var p := RenderProvider(template, defaultPrompt, systemText);
      text := ProviderPass(template, systemText, defaultPrompt);
      if !NeedsBuiltins(text) {
        assert p.warnings + [] == p.warnings;
        WarnAllSpec(old(log), p.warnings);
        return;
      }
      ghost var afterProvider := log;
      ghost var fetch := FetchWarnings(builtinsCache.Some?, moduleMemo.None?, importer);
      var b := GetBuiltinPrompts();
      text := SubstituteBuiltinTokens(text, b);
      ghost var s := SubstituteBuiltins(p.text, b, BuiltinKeys);
      WarnAllAppend(afterProvider, fetch, s.warnings);
      WarnAllAppend(old(log), p.warnings, fetch + s.warnings);
      WarnAllSpec(old(log), p.warnings + (fetch + s.warnings));
    }

    /**
     * `experimental.chat.system.transform`: with a matching rule and a first
     * system message that passes the guard, the provider prefix of that
     * message is replaced by the rendered template. `answer` is what
     * `client.path.get()` does during this call.
     */
    method SystemTransform(model: Option<ModelInfo>, answer: PathAnswer, output: SystemOutput, fs: Fs)
      requires Valid()
      modifies this`globalConfigDir, this`markdownCache, this`regexCache, this`compiled, this`builtinsCache,
        this`moduleMemo, this`imports, this`warned, this`log, output`system
      ensures Valid() && old(log) <= log
      ensures globalConfigDir == Some(ResolvedDir(old(globalConfigDir), answer, home))
      ensures var out := LoadDir(RulesDir(ResolvedDir(old(globalConfigDir), answer, home)), fs, yaml, regex,
                                 old(markdownCache), old(regexCache));
        var rule := MatchRule(out.rules, ModelKey(model), regex);
        && markdownCache == out.markdownCache && regexCache == out.regexCache
        && output.system == TransformSystem(old(output.system), rule, HostDefaultPrompt(importer, model),
                                            HostBuiltins(importer))
        && log == WarnAll(old(log), DirWarnings(old(globalConfigDir).None?, answer) + out.warnings
                                    + (if rule.None? then []
                                       else RewriteWarnings(old(output.system), rule.value.prompt, model,
                                                            old(builtinsCache).Some?, old(moduleMemo).None?, importer)))
      ensures var out := LoadDir(RulesDir(ResolvedDir(old(globalConfigDir), answer, home)), fs, yaml, regex,
                                 old(markdownCache), old(regexCache));
        var rule := MatchRule(out.rules, ModelKey(model), regex);
        && builtinsCache == BuiltinsAfter(rule.Some? && RewriteFetches(old(output.system), rule.value.prompt, model, importer),
                                          old(builtinsCache), importer)
        && moduleMemo == (if rule.Some? && |old(output.system)| > 0 then Some(HostModule(importer)) else old(moduleMemo))
    {
      var rule := FindMatchingRule(ModelKey(model), answer, fs);
      ghost var found := DirWarnings(old(globalConfigDir).None?, answer)
        + LoadDir(RulesDir(ResolvedDir(old(globalConfigDir), answer, home)), fs, yaml, regex, old(markdownCache),
                  old(regexCache)).warnings;
      if rule.None? {
        assert found + [] == found;
        return;
      }
      RewriteSystem(rule.value, model, output);
      WarnAllAppend(old(log), found, RewriteWarnings(old(output.system), rule.value.prompt, model,
                                                     old(builtinsCache).Some?, old(moduleMemo).None?, importer));
    }

    /** The system transform once a rule has matched: the guard, then the rendering and the splice. */
    method RewriteSystem(rule: Rule, model: Option<ModelInfo>, output: SystemOutput)
      requires Valid()
      modifies this`builtinsCache, this`moduleMemo, this`imports, this`warned, this`log, output`system
      ensures Valid() && old(log) <= log
      ensures output.system == TransformSystem(old(output.system), Some(rule), HostDefaultPrompt(importer, model),
                                               HostBuiltins(importer))
      ensures log == WarnAll(old(log), RewriteWarnings(old(output.system), rule.prompt, model, old(builtinsCache).Some?,
                                                       old(moduleMemo).None?, importer))
      ensures builtinsCache == BuiltinsAfter(RewriteFetches(old(output.system), rule.prompt, model, importer),
                                             old(builtinsCache), importer)
      ensures moduleMemo == (if |old(output.system)| > 0 then Some(HostModule(importer)) else old(moduleMemo))
    {
      if |output.system| == 0 {
        return;
      }
      var defaultPrompt := GetDefaultProviderPrompt(model);
      ghost var pw := ProviderWarnings(old(moduleMemo).None?, importer, model);
      ghost var rw := if TransformApplies(old(output.system)[0], defaultPrompt)
                      then RenderWarnings(rule.prompt, Some(old(output.system)[0]), defaultPrompt,
                                          old(builtinsCache).Some?, false, importer)
                      else [];
      RewriteText(rule, defaultPrompt, output);
      WarnAllAppend(old(log), pw, rw);
      WarnAllSpec(old(log), pw + rw);
    }

    /** The system transform once the default provider prompt is known: the guard, then the rendering and the splice. */
    method RewriteText(rule: Rule, defaultPrompt: Option<string>, output: SystemOutput)
      requires Valid() && |output.system| > 0 && moduleMemo.Some?
      modifies this`builtinsCache, this`moduleMemo, this`imports, this`warned, this`log, output`system
      ensures Valid() && moduleMemo == old(moduleMemo)
      ensures output.system == TransformSystem(old(output.system), Some(rule), defaultPrompt, HostBuiltins(importer))
      ensures var text := old(output.system)[0];
        && log == WarnAll(old(log), if TransformApplies(text, defaultPrompt)
                                    then RenderWarnings(rule.prompt, Some(text), defaultPrompt, old(builtinsCache).Some?,
                                                        false, importer)
                                    else [])
        && builtinsCache == BuiltinsAfter(TransformApplies(text, defaultPrompt)
                                          && RenderFetches(rule.prompt, Some(text), defaultPrompt),
                                          old(builtinsCache), importer)
    {
      var systemText := output.system[0];
      var trimmed := TrimStart(systemText);
      if defaultPrompt.Some? && defaultPrompt.value != "" {
        if !StartsWith(trimmed, defaultPrompt.value) {
          TransformSystemSkips(output.system, Some(rule), defaultPrompt, HostBuiltins(importer));
          return;
        }
      } else {
        var split := SplitProviderPrefix(systemText);
        if split.None? || split.value.prefix == "" {
          TransformSystemSkips(output.system, Some(rule), defaultPrompt, HostBuiltins(importer));
          return;
        }
      }
      SpliceRendered(rule.prompt, defaultPrompt, output);
      TransformSystemApplies(old(output.system), Some(rule), defaultPrompt, HostBuiltins(importer));
    }

    /** The first system message, past the guard, becomes its leading space, the rendered template and the rest. */
    method SpliceRendered(template: string, defaultPrompt: Option<string>, output: SystemOutput)
      requires Valid() && |output.system| > 0 && TransformApplies(output.system[0], defaultPrompt)
      modifies this`builtinsCache, this`moduleMemo, this`imports, this`warned, this`log, output`system
      ensures Valid()
      ensures var text := old(output.system[0]);
        output.system == old(output.system)[0 := Splice(text, ProviderPrefixAsWritten(text, defaultPrompt),
                                                        Render(template, defaultPrompt, Some(text), HostBuiltins(importer)).text)]
      ensures log == WarnAll(old(log), RenderWarnings(template, Some(old(output.system[0])), defaultPrompt,
                                                      old(builtinsCache).Some?, old(moduleMemo).None?, importer))
      ensures var fetches := RenderFetches(template, Some(old(output.system[0])), defaultPrompt);
        && builtinsCache == BuiltinsAfter(fetches, old(builtinsCache), importer)
        && moduleMemo == ModuleAfter(fetches, old(builtinsCache), old(moduleMemo), importer)
    {
      var systemText := output.system[0];
      var trimmed := TrimStart(systemText);
      PrefixOfTrimmed(systemText, defaultPrompt);
      var rendered := RenderPrompt(template, Some(systemText), defaultPrompt);
      var leading := systemText[..|systemText| - |trimmed|];
      var prefix := ProviderPrefixAsWritten(systemText, defaultPrompt);
      var rest := Slice(trimmed, |prefix|);
      assert leading + rendered + rest == Splice(systemText, prefix, rendered);
      output.system := output.system[0 := leading + rendered + rest];
    }

    /**
     * `chat.params`: unless the agent has its own prompt, `instructions` is
     * overwritten by the matching rule's template, rendered with the prior
     * instructions as the provider prompt. When the hook returns before
     * looking up a rule nothing changes; otherwise the caches are those of
     * the rule lookup.
     */
    method ChatParams(model: Option<ModelInfo>, agent: AgentValue, answer: PathAnswer, output: ParamsOutput, fs: Fs)
      requires Valid()
      modifies this`globalConfigDir, this`markdownCache, this`regexCache, this`compiled, this`builtinsCache,
        this`moduleMemo, this`imports, this`warned, this`log, output`options
      ensures Valid() && old(log) <= log
      ensures var out := LoadDir(RulesDir(ResolvedDir(old(globalConfigDir), answer, home)), fs, yaml, regex,
                                 old(markdownCache), old(regexCache));
        output.options == ParamsOptions(old(output.options), agent, MatchRule(out.rules, ModelKey(model), regex),
                                        HostBuiltins(importer))
      ensures var proceeds := old(output.options).Some? && old(output.options).value.PStr? && !AgentHasPrompt(agent);
        !proceeds ==> unchanged(this)
      ensures old(output.options).Some? && old(output.options).value.PStr? && !AgentHasPrompt(agent) ==>
        var existing := old(output.options).value.s;
        var out := LoadDir(RulesDir(ResolvedDir(old(globalConfigDir), answer, home)), fs, yaml, regex,
                           old(markdownCache), old(regexCache));
        var rule := MatchRule(out.rules, ModelKey(model), regex);
        var fetches := rule.Some? && RenderFetches(rule.value.prompt, None, Some(existing));
        && globalConfigDir == Some(ResolvedDir(old(globalConfigDir), answer, home))
        && markdownCache == out.markdownCache && regexCache == out.regexCache
        && log == WarnAll(old(log), DirWarnings(old(globalConfigDir).None?, answer) + out.warnings
                                    + (if rule.None? then []
                                       else RenderWarnings(rule.value.prompt, None, Some(existing),
                                                           old(builtinsCache).Some?, old(moduleMemo).None?, importer)))
        && builtinsCache == BuiltinsAfter(fetches, old(builtinsCache), importer)
        && moduleMemo == ModuleAfter(fetches, old(builtinsCache), old(moduleMemo), importer)
    {
      if output.options.None? || !output.options.value.PStr? {
        return;
      }
      if AgentHasPrompt(agent) {
        return;
      }
      InstructionsFromRule(model, answer, output.options.value.s, output, fs);
    }

    /** `chat.params` past its guards: find the rule and render its template with `existing` as the provider prompt. */
    method InstructionsFromRule(model: Option<ModelInfo>, answer: PathAnswer, existing: string, output: ParamsOutput,
                                fs: Fs)
      requires Valid()
      modifies this`globalConfigDir, this`markdownCache, this`regexCache, this`compiled, this`builtinsCache,
        this`moduleMemo, this`imports, this`warned, this`log, output`options
      ensures Valid() && old(log) <= log
      ensures var out := LoadDir(RulesDir(ResolvedDir(old(globalConfigDir), answer, home)), fs, yaml, regex,
                                 old(markdownCache), old(regexCache));
        var rule := MatchRule(out.rules, ModelKey(model), regex);
        && output.options == (if rule.None? then old(output.options)
                              else Some(PStr(Render(rule.value.prompt, Some(existing), None, HostBuiltins(importer)).text)))
        && globalConfigDir == Some(ResolvedDir(old(globalConfigDir), answer, home))
        && markdownCache == out.markdownCache && regexCache == out.regexCache
        && log == WarnAll(old(log), DirWarnings(old(globalConfigDir).None?, answer) + out.warnings
                                    + (if rule.None? then []
                                       else RenderWarnings(rule.value.prompt, None, Some(existing),
                                                           old(builtinsCache).Some?, old(moduleMemo).None?, importer)))
      ensures var out := LoadDir(RulesDir(ResolvedDir(old(globalConfigDir), answer, home)), fs, yaml, regex,
                                 old(markdownCache), old(regexCache));
        var rule := MatchRule(out.rules, ModelKey(model), regex);
        var fetches := rule.Some? && RenderFetches(rule.value.prompt, None, Some(existing));
        && builtinsCache == BuiltinsAfter(fetches, old(builtinsCache), importer)
        && moduleMemo == ModuleAfter(fetches, old(builtinsCache), old(moduleMemo), importer)
    {
      var rule := FindMatchingRule(ModelKey(model), answer, fs);
      ghost var found := DirWarnings(old(globalConfigDir).None?, answer)
        + LoadDir(RulesDir(ResolvedDir(old(globalConfigDir), answer, home)), fs, yaml, regex, old(markdownCache),
                  old(regexCache)).warnings;
      if rule.None? {
        assert found + [] == found;
        return;
      }
      var rendered := RenderPrompt(rule.value.prompt, None, Some(existing));
      ghost var keys := RenderWarnings(rule.value.prompt, None, Some(existing), old(builtinsCache).Some?,
                                       old(moduleMemo).None?, importer);
      WarnAllAppend(old(log), found, keys);
      WarnAllSpec(old(log), found + keys);
      output.options := Some(PStr(rendered));
    }
  }
}
