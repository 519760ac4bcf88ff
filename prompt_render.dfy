/**
 * The pure side of placeholder rendering and of the two hooks of
 * provider-system-prompts.ts: the provider-prefix split of a system text, the
 * `{{opencode:provider}}` and `{{opencode:builtin:<key>}}` substitutions, the
 * host `SystemPrompt` module seen as an oracle, the splice of a rendered
 * prompt into the outbound system text, and the `chat.params` override.
 */
module PromptRender {
  import opened Wrappers
  import opened Text
  import opened PromptRules

  const ProviderToken := "{{opencode:provider}}"

  /** The line of the host's environment block that follows the provider prompt. */
  const EnvMarker := "You are powered by the model named "

  // ----- Provider prefix -----

  datatype PrefixSplit = PrefixSplit(prefix: string, rest: string)

  /** `splitProviderPrefixFromSystemText`: the text before the marker, right-trimmed, and everything after that. */
  function SplitProviderPrefix(systemText: string): Option<PrefixSplit> {
    var trimmed := TrimStart(systemText);
    if trimmed == "" then None
    else
      match IndexOf(trimmed, EnvMarker)
      case None => None
      case Some(idx) =>
        var prefix := TrimEnd(trimmed[..idx]);
        Some(PrefixSplit(prefix, trimmed[|prefix|..]))
  }

  /** An occurrence strictly inside the text before the first occurrence cannot exist. */
  lemma NoEarlierOccurrence(s: string, t: string, idx: nat, n: nat)
    requires |t| > 0 && n <= idx && IndexOf(s, t) == Some(idx)
    ensures !Contains(s[..n], t)
  {
    forall k | 0 <= k <= n ensures !OccursAt(s[..n], t, k) {
      if OccursAt(s[..n], t, k) {
        OccursInPrefix(s, t, n, k);
      }
    }
  }

  /**
   * The split exists exactly when the left-trimmed text contains the marker.
   * Then prefix and rest re-join to the left-trimmed text, the prefix ends in
   * a non-space and does not contain the marker, and the rest is the
   * separating whitespace followed by the marker and what comes after it.
   */
  lemma SplitProviderPrefixSpec(systemText: string)
    ensures var trimmed, r := TrimStart(systemText), SplitProviderPrefix(systemText);
      && (r.Some? <==> Contains(trimmed, EnvMarker))
      && (r.Some? ==>
            && r.value.prefix + r.value.rest == trimmed
            && (r.value.prefix == "" || !IsSpace(r.value.prefix[|r.value.prefix| - 1]))
            && !Contains(r.value.prefix, EnvMarker)
            && exists w :: AllSpace(w) && StartsWith(r.value.rest, w + EnvMarker))
  {
    var trimmed := TrimStart(systemText);
    if trimmed != "" && IndexOf(trimmed, EnvMarker).Some? {
      CutBefore(trimmed, EnvMarker, IndexOf(trimmed, EnvMarker).value);
    }
  }

  /** The right-trimmed text before the first occurrence of t, and the rest of the text. */
  lemma CutBefore(s: string, t: string, idx: nat)
    requires |t| > 0 && IndexOf(s, t) == Some(idx)
    ensures var prefix := TrimEnd(s[..idx]);
      && prefix + s[|prefix|..] == s
      && !Contains(prefix, t)
      && exists w :: AllSpace(w) && StartsWith(s[|prefix|..], w + t)
  {
    var prefix := TrimEnd(s[..idx]);
    assert prefix == s[..|prefix|];
    NoEarlierOccurrence(s, t, idx, |prefix|);
    CutRest(s, t, idx, |prefix|);
  }

  /** Whitespace, then the first occurrence of t, begins the text after a right-trimmed prefix. */
  lemma CutRest(s: string, t: string, idx: nat, n: nat)
    requires |t| > 0 && IndexOf(s, t) == Some(idx) && n == |TrimEnd(s[..idx])|
    ensures AllSpace(s[n..idx]) && StartsWith(s[n..], s[n..idx] + t)
  {
    var head := s[..idx];
    var w := s[n..idx];
    assert head[n..] == w;
    assert s[idx..idx + |t|] == t;
    assert s[n..][..|w| + |t|] == s[n..idx + |t|];
    assert s[n..idx + |t|] == w + t;
  }

  // ----- Placeholders -----

  /** The values for `{{opencode:builtin:<key>}}`, "" for a prompt that did not resolve. */
  datatype Builtins = Builtins(codex: string, beast: string, gemini: string, anthropic: string, qwen: string)

  const BuiltinKeys: seq<string> := ["codex", "beast", "gemini", "anthropic", "qwen"]

  function BuiltinToken(key: string): string {
    "{{opencode:builtin:" + key + "}}"
  }

  /** `builtins?.[key] ?? ""` */
  function BuiltinValue(b: Option<Builtins>, key: string): string {
    match b
    case None => ""
    case Some(p) =>
      if key == "codex" then p.codex
      else if key == "beast" then p.beast
      else if key == "gemini" then p.gemini
      else if key == "anthropic" then p.anthropic
      else if key == "qwen" then p.qwen
      else ""
  }

  /** A rendered text and the warning keys raised while rendering it, in order. */
  datatype Rendered = Rendered(text: string, warnings: seq<string>)

  /**
   * The value of `{{opencode:provider}}`: a non-empty default provider prompt,
   * else the right-trimmed marker-split prefix of a non-empty system text,
   * else "" (which is warned about).
   */
  function ProviderValue(defaultPrompt: Option<string>, systemText: Option<string>): string {
    if defaultPrompt.Some? && defaultPrompt.value != "" then defaultPrompt.value
    else if systemText.Some? && systemText.value != "" then
      match SplitProviderPrefix(systemText.value)
      case Some(split) => TrimEnd(split.prefix)
      case None => ""
    else ""
  }

  /** The provider prompt is looked up in the order: default prompt, system-text prefix, nothing. */
  lemma ProviderValueOrder(defaultPrompt: Option<string>, systemText: Option<string>)
    ensures defaultPrompt.Some? && defaultPrompt.value != "" ==> ProviderValue(defaultPrompt, systemText) == defaultPrompt.value
    ensures ((defaultPrompt.None? || defaultPrompt.value == "") && systemText.Some? &&
             SplitProviderPrefix(systemText.value).Some?) ==>
        ProviderValue(defaultPrompt, systemText) == SplitProviderPrefix(systemText.value).value.prefix
    ensures ((defaultPrompt.None? || defaultPrompt.value == "") &&
             (systemText.None? || SplitProviderPrefix(systemText.value).None?)) ==>
        ProviderValue(defaultPrompt, systemText) == ""
  {
    if (defaultPrompt.None? || defaultPrompt.value == "") && systemText.Some? {
      if systemText.value == "" {
        assert TrimStart(systemText.value) == "";
      } else if SplitProviderPrefix(systemText.value).Some? {
        var p := SplitProviderPrefix(systemText.value).value.prefix;
        SplitProviderPrefixSpec(systemText.value);
        TrimEndOfTrimmed(p);
      }
    }
  }

  /** Right-trimming a text that does not end in whitespace leaves it alone. */
  lemma TrimEndOfTrimmed(s: string)
    requires s == "" || !IsSpace(s[|s| - 1])
    ensures TrimEnd(s) == s
  {
  }

  /** The `{{opencode:provider}}` pass of `renderPrompt`. */
  function RenderProvider(template: string, defaultPrompt: Option<string>, systemText: Option<string>): Rendered {
    if !Contains(template, ProviderToken) then Rendered(template, [])
    else
      var value := ProviderValue(defaultPrompt, systemText);
      Rendered(ReplaceAll(template, ProviderToken, value), if value == "" then ["provider-placeholder"] else [])
  }

  /**
   * Every `{{opencode:provider}}` gets the same value: the template is cut at
   * the tokens and the pieces are re-joined with the provider value; the
   * warning is raised exactly when a token is present and no value resolves.
   */
  lemma RenderProviderSpec(template: string, defaultPrompt: Option<string>, systemText: Option<string>)
    ensures var pieces, out := SplitOn(template, ProviderToken), RenderProvider(template, defaultPrompt, systemText);
      && Join(pieces, ProviderToken) == template
      && out.text == Join(pieces, ProviderValue(defaultPrompt, systemText))
      && (forall p :: p in pieces ==> !Contains(p, ProviderToken))
      && (out.warnings == ["provider-placeholder"] <==>
            Contains(template, ProviderToken) && ProviderValue(defaultPrompt, systemText) == "")
      && (out.warnings != ["provider-placeholder"] ==> out.warnings == [])
  {
    ReplaceAllDecomposes(template, ProviderToken, ProviderValue(defaultPrompt, systemText));
    if !Contains(template, ProviderToken) {
      SplitAbsent(template, ProviderToken);
    }
  }

  /** The builtin substitutions for `keys`, in order; defined from the last key so that a prefix of the keys is a call. */
  function SubstituteBuiltins(text: string, b: Option<Builtins>, keys: seq<string>): Rendered
    decreases |keys|
  {
    if |keys| == 0 then Rendered(text, [])
    else
      var prev := SubstituteBuiltins(text, b, keys[..|keys| - 1]);
      var key := keys[|keys| - 1];
      var token := BuiltinToken(key);
      if !Contains(prev.text, token) then prev
      else
        var value := BuiltinValue(b, key);
        Rendered(ReplaceAll(prev.text, token, value),
                 prev.warnings + (if value == "" then ["builtin-placeholder:" + key] else []))
  }

  /** `builtinKeys.some(key => rendered.includes(token(key)))` */
  predicate NeedsBuiltins(text: string) {
    exists i :: 0 <= i < |BuiltinKeys| && Contains(text, BuiltinToken(BuiltinKeys[i]))
  }

  /** `renderPrompt`: the provider pass, then the builtin pass when any builtin token is present. */
  function Render(template: string, defaultPrompt: Option<string>, systemText: Option<string>, b: Option<Builtins>)
    : Rendered
  {
    var p := RenderProvider(template, defaultPrompt, systemText);
    if !NeedsBuiltins(p.text) then p
    else
      var s := SubstituteBuiltins(p.text, b, BuiltinKeys);
      Rendered(s.text, p.warnings + s.warnings)
  }

  /** Without any of their tokens in the text, the builtin substitutions change nothing and warn about nothing. */
  lemma {:induction false} SubstituteWithoutTokens(text: string, b: Option<Builtins>, keys: seq<string>)
    requires forall i :: 0 <= i < |keys| ==> !Contains(text, BuiltinToken(keys[i]))
    ensures SubstituteBuiltins(text, b, keys) == Rendered(text, [])
    decreases |keys|
  {
    if |keys| > 0 {
      SubstituteWithoutTokens(text, b, keys[..|keys| - 1]);
    }
  }

  /** Every warning of the builtin pass names a key whose token was present and whose value is "". */
  lemma {:induction false} SubstituteWarnings(text: string, b: Option<Builtins>, keys: seq<string>)
    ensures forall w :: w in SubstituteBuiltins(text, b, keys).warnings ==>
      exists k :: k in keys && BuiltinValue(b, k) == "" && w == "builtin-placeholder:" + k
    decreases |keys|
  {
    if |keys| > 0 {
      SubstituteWarnings(text, b, keys[..|keys| - 1]);
      assert forall k :: k in keys[..|keys| - 1] ==> k in keys;
    }
  }

  /**
   * Fetching the builtins only when needed does not change the result: the
   * rendered text is always the builtin pass over the provider pass, and a
   * text without builtin tokens renders the same whatever the builtins are.
   */
  lemma RenderLazy(template: string, defaultPrompt: Option<string>, systemText: Option<string>, b: Option<Builtins>,
                   b2: Option<Builtins>)
    ensures var p := RenderProvider(template, defaultPrompt, systemText);
      Render(template, defaultPrompt, systemText, b).text == SubstituteBuiltins(p.text, b, BuiltinKeys).text
    ensures !NeedsBuiltins(RenderProvider(template, defaultPrompt, systemText).text) ==>
      Render(template, defaultPrompt, systemText, b) == Render(template, defaultPrompt, systemText, b2)
  {
    var p := RenderProvider(template, defaultPrompt, systemText);
    if !NeedsBuiltins(p.text) {
      SubstituteWithoutTokens(p.text, b, BuiltinKeys);
    }
  }

  /** A template without placeholders renders to itself, with no warning. */
  lemma RenderPlain(template: string, defaultPrompt: Option<string>, systemText: Option<string>, b: Option<Builtins>)
    requires !Contains(template, ProviderToken) && !NeedsBuiltins(template)
    ensures Render(template, defaultPrompt, systemText, b) == Rendered(template, [])
  {
  }

  // ----- The host `SystemPrompt` module -----

  /** The part of the host's model object the plugins read. */
  datatype ModelInfo = ModelInfo(providerID: Option<string>, apiID: Option<string>)

  /** `${input.model?.providerID ?? ""}/${input.model?.api?.id ?? ""}` */
  function ModelKey(model: Option<ModelInfo>): string {
    match model
    case None => "/"
    case Some(m) => m.providerID.GetOr("") + "/" + m.apiID.GetOr("")
  }

  /** `makeModelLike(apiId, providerID)` */
  function ModelLike(apiId: string, providerID: string): Option<ModelInfo> {
    Some(ModelInfo(Some(providerID), Some(apiId)))
  }

  /** A host call throws, or returns: `Some(s)` when the value read (`[0]` of a provider list) is a string. */
  datatype Call = Threw | Returned(value: Option<string>)

  datatype SystemPromptModule = SystemPromptModule(provider: Option<ModelInfo> -> Call, instructions: Call)

  /** A dynamic import throws, or yields a module that may lack `provider` or `instructions`. */
  datatype ImportResult = ImportThrew | Imported(complete: bool, loaded: SystemPromptModule)

  const Specifiers: seq<string> :=
    ["@/session/system", "@opencode-ai/opencode/src/session/system", "@opencode-ai/opencode/dist/session/system"]

  /** The module of the first specifier that imports with both members. */
  function FirstUsable(importer: string -> ImportResult, specs: seq<string>): Option<SystemPromptModule> {
    if |specs| == 0 then None
    else if importer(specs[0]).Imported? && importer(specs[0]).complete then Some(importer(specs[0]).loaded)
    else FirstUsable(importer, specs[1..])
  }

  lemma {:induction false} FirstUsableSpec(importer: string -> ImportResult, specs: seq<string>)
    ensures var r := FirstUsable(importer, specs);
      && (r.None? <==> forall i :: 0 <= i < |specs| ==> !(importer(specs[i]).Imported? && importer(specs[i]).complete))
      && (r.Some? ==> exists i :: (0 <= i < |specs| && importer(specs[i]) == Imported(true, r.value)
            && forall j :: 0 <= j < i ==> !(importer(specs[j]).Imported? && importer(specs[j]).complete)))
  {
    if |specs| > 0 {
      FirstUsableSpec(importer, specs[1..]);
      var r := FirstUsable(importer, specs);
      if !(importer(specs[0]).Imported? && importer(specs[0]).complete) && r.Some? {
        var i :| 0 <= i < |specs[1..]| && importer(specs[1..][i]) == Imported(true, r.value)
          && forall j :: 0 <= j < i ==> !(importer(specs[1..][j]).Imported? && importer(specs[1..][j]).complete);
        assert importer(specs[i + 1]) == Imported(true, r.value);
        assert forall j :: 0 <= j < i + 1 ==> !(importer(specs[j]).Imported? && importer(specs[j]).complete) by {
          forall j | 0 <= j < i + 1 ensures !(importer(specs[j]).Imported? && importer(specs[j]).complete) {
            if j > 0 {
              assert specs[j] == specs[1..][j - 1];
            }
          }
        }
      }
      assert forall i :: 1 <= i < |specs| ==> specs[i] == specs[1..][i - 1];
    }
  }

  /** The module the plugin settles on, if any. */
  function HostModule(importer: string -> ImportResult): Option<SystemPromptModule> {
    FirstUsable(importer, Specifiers)
  }

  /** `coercePrompt`: a string is trimmed, anything else is null. */
  function Coerce(v: Option<string>): Option<string> {
    match v
    case None => None
    case Some(s) => Some(Trim(s))
  }

  /** The builtin prompts of a module: `None` when any of the five calls throws. */
  function BuiltinsFrom(m: SystemPromptModule): Option<Builtins> {
    var instructions := m.instructions;
    var beast := m.provider(ModelLike("gpt-4", "openai"));
    var gemini := m.provider(ModelLike("gemini-2", "google"));
    var anthropic := m.provider(ModelLike("claude", "anthropic"));
    var qwen := m.provider(ModelLike("qwen", "qwen"));
    if instructions.Threw? || beast.Threw? || gemini.Threw? || anthropic.Threw? || qwen.Threw? then None
    else Some(Builtins(Coerce(instructions.value).GetOr(""), Coerce(beast.value).GetOr(""),
                       Coerce(gemini.value).GetOr(""), Coerce(anthropic.value).GetOr(""),
                       Coerce(qwen.value).GetOr("")))
  }

  /** What `getBuiltinPrompts` yields for a host. */
  function HostBuiltins(importer: string -> ImportResult): Option<Builtins> {
    match HostModule(importer)
    case None => None
    case Some(m) => BuiltinsFrom(m)
  }

  /** What `getDefaultProviderPrompt(model)` yields for a host. */
  function HostDefaultPrompt(importer: string -> ImportResult, model: Option<ModelInfo>): Option<string> {
    match HostModule(importer)
    case None => None
    case Some(m) =>
      match m.provider(model)
      case Threw => None
      case Returned(v) => Coerce(v)
  }

  // ----- The system transform -----

  /** `s.slice(n)` for n >= 0 */
  function Slice(s: string, n: nat): string {
    if n <= |s| then s[n..] else ""
  }

  /** The guard of the system transform: the text starts with the default prompt, else it has a non-empty marker prefix. */
  predicate TransformApplies(systemText: string, defaultPrompt: Option<string>) {
    if defaultPrompt.Some? && defaultPrompt.value != "" then StartsWith(TrimStart(systemText), defaultPrompt.value)
    else
      var split := SplitProviderPrefix(systemText);
      split.Some? && split.value.prefix != ""
  }

  /** The marker-split prefix, or "" */
  function SplitPrefixOrEmpty(systemText: string): string {
    match SplitProviderPrefix(systemText)
    case Some(split) => split.prefix
    case None => ""
  }

  /** `defaultProviderPrompt ?? split?.prefix ?? ""`: a blank default prompt is kept, being a string. */
  function ProviderPrefixAsWritten(systemText: string, defaultPrompt: Option<string>): string {
    if defaultPrompt.Some? then defaultPrompt.value else SplitPrefixOrEmpty(systemText)
  }

  /** The prefix the transform replaces: the default prompt when non-empty, else the marker-split prefix. */
  function ProviderPrefix(systemText: string, defaultPrompt: Option<string>): string {
    if defaultPrompt.Some? && defaultPrompt.value != "" then defaultPrompt.value else SplitPrefixOrEmpty(systemText)
  }

  /** `${leadingWhitespace}${rendered}${trimmedSystem.slice(prefix.length)}` */
  function Splice(systemText: string, prefix: string, rendered: string): string {
    var trimmed := TrimStart(systemText);
    systemText[..|systemText| - |trimmed|] + rendered + Slice(trimmed, |prefix|)
  }

  /** `output.system` after `experimental.chat.system.transform`, given the matching rule and the host's answers. */
  function TransformSystem(system: seq<string>, rule: Option<Rule>, defaultPrompt: Option<string>, b: Option<Builtins>)
    : seq<string>
  {
    if rule.None? || |system| == 0 || !TransformApplies(system[0], defaultPrompt) then system
    else
      var text := system[0];
      var rendered := Render(rule.value.prompt, defaultPrompt, Some(text), b).text;
      system[0 := Splice(text, ProviderPrefixAsWritten(text, defaultPrompt), rendered)]
  }

  lemma TransformSystemSkips(system: seq<string>, rule: Option<Rule>, defaultPrompt: Option<string>, b: Option<Builtins>)
    requires |system| > 0 && !TransformApplies(system[0], defaultPrompt)
    ensures TransformSystem(system, rule, defaultPrompt, b) == system
  {
  }

  lemma TransformSystemApplies(system: seq<string>, rule: Option<Rule>, defaultPrompt: Option<string>, b: Option<Builtins>)
    requires rule.Some? && |system| > 0 && TransformApplies(system[0], defaultPrompt)
    ensures TransformSystem(system, rule, defaultPrompt, b) ==
      system[0 := Splice(system[0], ProviderPrefixAsWritten(system[0], defaultPrompt),
                         Render(rule.value.prompt, defaultPrompt, Some(system[0]), b).text)]
  {
  }

  /**
   * When the transform applies, the prefix it cuts is a prefix of the
   * left-trimmed text: the default prompt the guard checked, the empty
   * string for a blank default prompt, or the marker-split prefix.
   */
  lemma PrefixOfTrimmed(systemText: string, defaultPrompt: Option<string>)
    requires TransformApplies(systemText, defaultPrompt)
    ensures StartsWith(TrimStart(systemText), ProviderPrefixAsWritten(systemText, defaultPrompt))
  {
    if defaultPrompt.None? {
      SplitProviderPrefixSpec(systemText);
      var split := SplitProviderPrefix(systemText).value;
      assert (split.prefix + split.rest)[..|split.prefix|] == split.prefix;
    }
  }

  /**
   * The corrected prefix is the one the guard accepted: the default prompt
   * when it is non-empty, else the marker-split prefix; it is never empty
   * and always starts the left-trimmed text, so the splice removes it.
   */
  lemma CorrectedPrefixSpec(systemText: string, defaultPrompt: Option<string>)
    requires TransformApplies(systemText, defaultPrompt)
    ensures var p := ProviderPrefix(systemText, defaultPrompt);
      && p != "" && StartsWith(TrimStart(systemText), p)
      && p == (if defaultPrompt.Some? && defaultPrompt.value != "" then defaultPrompt.value
               else SplitProviderPrefix(systemText).value.prefix)
  {
    if !(defaultPrompt.Some? && defaultPrompt.value != "") {
      SplitProviderPrefixSpec(systemText);
      var split := SplitProviderPrefix(systemText).value;
      assert (split.prefix + split.rest)[..|split.prefix|] == split.prefix;
    }
  }

  /**
   * The transform leaves the system messages alone unless a rule matches, a
   * first message exists and the guard holds; at most the first message changes.
   */
  lemma TransformSystemFrame(system: seq<string>, rule: Option<Rule>, defaultPrompt: Option<string>, b: Option<Builtins>)
    ensures var r := TransformSystem(system, rule, defaultPrompt, b);
      && (rule.None? || |system| == 0 || !TransformApplies(system[0], defaultPrompt) ==> r == system)
      && |r| == |system|
      && (|system| > 0 ==> r[1..] == system[1..])
  {
  }

  /**
   * When the transform applies, the first message keeps its leading
   * whitespace and everything after the provider prefix, and the prefix
   * itself is replaced by the rendered template.
   */
  lemma TransformSystemSpec(system: seq<string>, rule: Option<Rule>, defaultPrompt: Option<string>, b: Option<Builtins>)
    requires rule.Some? && |system| > 0 && TransformApplies(system[0], defaultPrompt)
    ensures var text, r := system[0], TransformSystem(system, rule, defaultPrompt, b);
      var rendered := Render(rule.value.prompt, defaultPrompt, Some(text), b).text;
      exists leading, rest :: AllSpace(leading)
        && text == leading + ProviderPrefixAsWritten(text, defaultPrompt) + rest && r[0] == leading + rendered + rest
  {
    var text := system[0];
    var prefix := ProviderPrefixAsWritten(text, defaultPrompt);
    var rendered := Render(rule.value.prompt, defaultPrompt, Some(text), b).text;
    PrefixOfTrimmed(text, defaultPrompt);
    SpliceSplits(text, prefix, rendered);
    TransformSystemApplies(system, rule, defaultPrompt, b);
    var n := |text| - |TrimStart(text)|;
    var leading, rest := text[..n], text[n + |prefix|..];
    assert TransformSystem(system, rule, defaultPrompt, b)[0] == leading + rendered + rest;
  }

  /** A splice keeps the leading whitespace and what follows the replaced prefix. */
  lemma SpliceSplits(text: string, prefix: string, rendered: string)
    requires StartsWith(TrimStart(text), prefix)
    ensures var n := |text| - |TrimStart(text)|;
      && AllSpace(text[..n]) && text == text[..n] + prefix + text[n + |prefix|..]
      && Splice(text, prefix, rendered) == text[..n] + rendered + text[n + |prefix|..]
  {
    SuffixSplits(text, TrimStart(text), prefix);
  }

  /** A text ending in `t`, where `t` starts with `prefix`, is what comes before `t`, `prefix` and the rest. */
  lemma SuffixSplits(text: string, t: string, prefix: string)
    requires |t| <= |text| && t == text[|text| - |t|..] && StartsWith(t, prefix)
    ensures var n := |text| - |t|;
      && text == text[..n] + prefix + text[n + |prefix|..]
      && Slice(t, |prefix|) == text[n + |prefix|..]
  {
    var n := |text| - |t|;
    assert t == prefix + text[n + |prefix|..];
    assert text == text[..n] + t;
  }

  /**
   * As written, a blank default provider prompt (the host's provider prompt
   * is empty after trimming) lets the transform through the marker-split
   * branch but then replaces the empty prefix: the old provider prompt stays
   * in the message, after the rendered template, instead of being replaced.
   */
  lemma BlankDefaultKeepsPrefix(text: string, rendered: string)
    requires TransformApplies(text, Some(""))
    ensures var split, trimmed := SplitProviderPrefix(text).value, TrimStart(text);
      var leading := text[..|text| - |trimmed|];
      && split.prefix != ""
      && Splice(text, ProviderPrefixAsWritten(text, Some("")), rendered) == leading + rendered + split.prefix + split.rest
      && Splice(text, ProviderPrefix(text, Some("")), rendered) == leading + rendered + split.rest
      && Splice(text, ProviderPrefixAsWritten(text, Some("")), rendered) != Splice(text, ProviderPrefix(text, Some("")), rendered)
  {
    SplitProviderPrefixSpec(text);
    var split := SplitProviderPrefix(text).value;
    var trimmed := TrimStart(text);
    assert trimmed[|split.prefix|..] == split.rest by {
      assert trimmed == split.prefix + split.rest;
    }
    ConcatAssoc(text[..|text| - |trimmed|] + rendered, split.prefix, split.rest);
  }

  // ----- chat.params -----

  /** A property of a host object: absent, a string, or some other value. */
  datatype Prop = Absent | PStr(s: string) | POther

  /** `input.agent`: missing, a name, an object with `name` and `prompt` properties, or some other value. */
  datatype AgentValue = NoAgent | AgentString(name: string) | AgentObject(nameProp: Prop, promptProp: Prop) | AgentOther

  /** Built-in agents known to carry a prompt of their own. */
  const PromptedAgents: set<string> := {"explore", "title", "summary", "compaction"}

  function AgentName(agent: AgentValue): Option<string> {
    match agent
    case AgentString(name) => Some(name)
    case AgentObject(PStr(name), _) => Some(name)
    case _ => None
  }

  predicate AgentHasPrompt(agent: AgentValue) {
    || (agent.AgentObject? && agent.promptProp.PStr? && Trim(agent.promptProp.s) != "")
    || (AgentName(agent).Some? && AgentName(agent).value in PromptedAgents)
  }

  /**
   * `output.options` after `chat.params` (`None` when it is not an object),
   * given the rule that matches the request's model.
   */
  function ParamsOptions(options: Option<Prop>, agent: AgentValue, rule: Option<Rule>, b: Option<Builtins>)
    : Option<Prop>
  {
    if options.None? || !options.value.PStr? || AgentHasPrompt(agent) || rule.None? then options
    else Some(PStr(Render(rule.value.prompt, Some(options.value.s), None, b).text))
  }

  /**
   * The hook leaves the options alone when there are none, `instructions`
   * is not a string, the agent has a prompt of its own, or no rule matches;
   * otherwise `instructions` becomes the rendered template, whose provider
   * placeholder is the prior instructions, empty ones included, and whose
   * provider pass warns exactly when a placeholder meets empty instructions.
   */
  lemma ParamsOptionsSpec(options: Option<Prop>, agent: AgentValue, rule: Option<Rule>, b: Option<Builtins>)
    ensures var r := ParamsOptions(options, agent, rule, b);
      (r == options || r.Some?) &&
      (r != options ==> options.Some? && options.value.PStr? && !AgentHasPrompt(agent) && rule.Some?)
    ensures options.Some? && options.value.PStr? && !AgentHasPrompt(agent) && rule.Some? ==>
      var r := ParamsOptions(options, agent, rule, b);
      var p := RenderProvider(rule.value.prompt, Some(options.value.s), None);
      && r.value.PStr?
      && r.value.s == SubstituteBuiltins(p.text, b, BuiltinKeys).text
      && p.text == ReplaceAll(rule.value.prompt, ProviderToken, options.value.s)
      && (p.warnings == ["provider-placeholder"] <==> Contains(rule.value.prompt, ProviderToken) && options.value.s == "")
      && (p.warnings != ["provider-placeholder"] ==> p.warnings == [])
  {
    if options.Some? && options.value.PStr? && !AgentHasPrompt(agent) && rule.Some? {
      ProviderValueOrder(Some(options.value.s), None);
      RenderProviderSpec(rule.value.prompt, Some(options.value.s), None);
      RenderLazy(rule.value.prompt, Some(options.value.s), None, b, b);
      if !Contains(rule.value.prompt, ProviderToken) {
        ReplaceAllAbsent(rule.value.prompt, ProviderToken, options.value.s);
      }
    }
  }
}
