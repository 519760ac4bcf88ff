/**
 * The rule-file side of the provider prompt override engine
 * (provider-system-prompts.ts): frontmatter splitting, header validation, the
 * outcome of parsing one rule file, the directory signature, the eligible file
 * list, and first-match selection of a rule for a `provider/model` key.
 */
module PromptRules {
  import opened Wrappers
  import opened Text
  import opened Sorting
  import opened FileSystem

  // ----- Frontmatter -----

  const Delimiter := "---"

  predicate IsDelimiter(line: string) {
    Trim(line) == Delimiter
  }

  /** The lines of a rule file after CRLF is normalised to LF. */
  function Lines(text: string): (r: seq<string>)
    ensures |r| >= 1
  {
    SplitOn(NormalizeNewlines(text), "\n")
  }

  datatype Sections = Sections(frontmatter: string, body: string)

  /** The first delimiter line at or after `from`. */
  function FindDelimiter(lines: seq<string>, from: nat): (r: Option<nat>)
    requires from <= |lines|
    ensures r.Some? ==> from <= r.value < |lines| && IsDelimiter(lines[r.value])
    ensures r.Some? ==> forall k :: from <= k < r.value ==> !IsDelimiter(lines[k])
    ensures r.None? ==> forall k :: from <= k < |lines| ==> !IsDelimiter(lines[k])
    decreases |lines| - from
  {
    if from == |lines| then None
    else if IsDelimiter(lines[from]) then Some(from)
    else FindDelimiter(lines, from + 1)
  }

  /** The index of the closing delimiter, when the first line opens a header. */
  function ClosingLine(text: string): Option<nat> {
    var lines := Lines(text);
    if !IsDelimiter(lines[0]) then None else FindDelimiter(lines, 1)
  }

  /** `splitFrontmatter` as a value: header lines strictly between the delimiters, body after the closing one. */
  function FrontmatterOf(text: string): Option<Sections> {
    var lines := Lines(text);
    match ClosingLine(text)
    case None => None
    case Some(end) => Some(Sections(Join(lines[1..end], "\n"), Join(lines[end + 1..], "\n")))
  }

  /** `splitFrontmatter`, with the source's search loop for the closing delimiter. */
  method SplitFrontmatter(text: string) returns (r: Option<Sections>)
    ensures r == FrontmatterOf(text)
  {
    var lines := Lines(text);
    if !IsDelimiter(lines[0]) {
      return None;
    }
    var end := -1;
    var i := 1;
    while i < |lines|
      invariant 1 <= i <= |lines|
      invariant end == -1
      invariant FindDelimiter(lines, 1) == FindDelimiter(lines, i)
    {
      if IsDelimiter(lines[i]) {
        end := i;
        break;
      }
      i := i + 1;
    }
    if end == -1 {
      return None;
    }
    r := Some(Sections(Join(lines[1..end], "\n"), Join(lines[end + 1..], "\n")));
  }

  /** A file has frontmatter exactly when its first line and some later line are delimiters. */
  lemma FrontmatterExists(text: string)
    ensures var lines := Lines(text);
      FrontmatterOf(text).Some? <==>
        IsDelimiter(lines[0]) && exists e :: 1 <= e < |lines| && IsDelimiter(lines[e])
  {
    var lines := Lines(text);
    if IsDelimiter(lines[0]) && FindDelimiter(lines, 1).None? {
      assert forall e :: 1 <= e < |lines| ==> !IsDelimiter(lines[e]);
    }
  }

  /** Joined lines, seen around the line at index `end`. */
  lemma JoinAround(lines: seq<string>, end: nat)
    requires 1 <= end < |lines|
    ensures Join(lines, "\n") ==
      JoinHead(lines, end) + (if end + 1 < |lines| then "\n" + Join(lines[end + 1..], "\n") else "")
  {
    var head := lines[..end + 1];
    JoinHeadSpec(lines, end);
    if end + 1 < |lines| {
      var tail := lines[end + 1..];
      assert lines == head + tail;
      JoinAppend(head, tail, "\n");
      ConcatAssoc(Join(head, "\n"), "\n", Join(tail, "\n"));
    } else {
      assert lines == head;
    }
  }

  /** The first `end + 1` lines joined: opening line, the lines between, line `end`. */
  lemma JoinHeadSpec(lines: seq<string>, end: nat)
    requires 1 <= end < |lines|
    ensures JoinHead(lines, end) == Join(lines[..end + 1], "\n")
  {
    var head := lines[..end + 1];
    if end > 1 {
      var first := [lines[0]] + lines[1..end];
      assert head == first + [lines[end]];
      JoinAppend(first, [lines[end]], "\n");
      JoinAppend([lines[0]], lines[1..end], "\n");
    } else {
      assert head == [lines[0]] + [lines[end]];
      JoinAppend([lines[0]], [lines[end]], "\n");
    }
  }

  function JoinHead(lines: seq<string>, end: nat): string
    requires 1 <= end < |lines|
  {
    lines[0] + "\n" + (if end > 1 then Join(lines[1..end], "\n") + "\n" else "") + lines[end]
  }

  /**
   * The header is made of the lines before the FIRST closing delimiter, and
   * the opening delimiter, the header, the closing delimiter and the body
   * re-join to the normalised text.
   */
  lemma FrontmatterRoundTrip(text: string)
    requires FrontmatterOf(text).Some?
    ensures var lines, end, s := Lines(text), ClosingLine(text).value, FrontmatterOf(text).value;
      && 1 <= end < |lines| && IsDelimiter(lines[0]) && IsDelimiter(lines[end])
      && (forall k :: 1 <= k < end ==> !IsDelimiter(lines[k]))
      && NormalizeNewlines(text) ==
           lines[0] + "\n" + (if end > 1 then s.frontmatter + "\n" else "") + lines[end]
           + (if end + 1 < |lines| then "\n" + s.body else "")
  {
    JoinSplit(NormalizeNewlines(text), "\n");
    JoinAround(Lines(text), ClosingLine(text).value);
  }

  // ----- Header validation -----

  /** A value of the YAML header: absent, a string, a boolean, or anything else. */
  datatype Field = Missing | YString(s: string) | YBool(b: bool) | YOther

  /** What the YAML parser makes of the header text. */
  datatype YamlDoc = Malformed | NotMapping | Mapping(model: Field, modelRegex: Field, flags: Field, enabled: Field)

  datatype Meta = Meta(model: Field, modelRegex: Field, flags: Field, enabled: Field)

  /** A non-mapping document counts as an empty header. */
  function MetaOf(doc: YamlDoc): Meta
    requires !doc.Malformed?
  {
    match doc
    case NotMapping => Meta(Missing, Missing, Missing, Missing)
    case Mapping(m, r, f, e) => Meta(m, r, f, e)
  }

  /** The field's string, "" when it is not a string (both are falsy in the source). */
  function StringOf(f: Field): string {
    if f.YString? then f.s else ""
  }

  datatype MatchSpec = ExactModel(model: string) | ModelPattern(pattern: string, flags: string)

  /** A header is disabled (dropped without a warning), rejected with a warning key, or accepted. */
  datatype HeaderVerdict = Disabled | Rejected(warning: string) | Accepted(spec: MatchSpec)

  /** A present `enabled` that is not a boolean is warned about and otherwise ignored. */
  predicate EnabledWarns(m: Meta) {
    !m.enabled.Missing? && !m.enabled.YBool?
  }

  function CheckHeader(m: Meta, path: string): HeaderVerdict {
    var model, regex := StringOf(m.model), StringOf(m.modelRegex);
    var hasFlags := !m.flags.Missing?;
    if m.enabled == YBool(false) then Disabled
    else if hasFlags && !m.flags.YString? then Rejected("invalid-flags:" + path)
    else if (model != "" && regex != "") || (model == "" && regex == "") then Rejected("invalid-match:" + path)
    else if hasFlags && regex == "" then Rejected("invalid-flags:" + path)
    else if model != "" then Accepted(ExactModel(model))
    else Accepted(ModelPattern(regex, StringOf(m.flags)))
  }

  /**
   * A header yields a rule exactly when it is not disabled, `flags` is absent
   * or a string, exactly one of `model`/`modelRegex` is a non-empty string, and
   * `flags` comes only with `modelRegex`; the rule matches by that one field.
   */
  lemma CheckHeaderSpec(m: Meta, path: string)
    ensures CheckHeader(m, path).Accepted? <==>
      && m.enabled != YBool(false)
      && (m.flags.Missing? || m.flags.YString?)
      && ((StringOf(m.model) != "") != (StringOf(m.modelRegex) != ""))
      && (!m.flags.Missing? ==> StringOf(m.modelRegex) != "")
    ensures CheckHeader(m, path) == Accepted(ExactModel(StringOf(m.model))) <==>
      CheckHeader(m, path).Accepted? && StringOf(m.model) != ""
    ensures CheckHeader(m, path).Accepted? && StringOf(m.model) == "" ==>
      CheckHeader(m, path) == Accepted(ModelPattern(StringOf(m.modelRegex), StringOf(m.flags)))
    ensures CheckHeader(m, path) == Disabled <==> m.enabled == YBool(false)
  {
  }

  // ----- Rules and the regex cache -----

  /** A compiled regular expression, known only by its source text. */
  datatype Regex = Regex(pattern: string, flags: string)

  /** `new RegExp(pattern, flags)` succeeds or throws; `regex.test(key)` accepts or not. */
  datatype RegexOracle = RegexOracle(compiles: (string, string) -> bool, accepts: (Regex, string) -> bool)

  datatype Matcher = Exact(model: string) | Pattern(regex: Regex)

  datatype Rule = Rule(matcher: Matcher, prompt: string)

  /** Compiled regexes and remembered failures, by the source's string key. */
  type RegexCache = map<string, Option<Regex>>

  function RegexKey(pattern: string, flags: string): string {
    pattern + "::" + flags
  }

  /** The key is the concatenation `pattern::flags`, so distinct pairs can share one cache entry. */
  lemma RegexKeyCollides()
    ensures RegexKey("x::", "i") == RegexKey("x", "::i")
  {
  }

  function Compile(o: RegexOracle, pattern: string, flags: string): Option<Regex> {
    if o.compiles(pattern, flags) then Some(Regex(pattern, flags)) else None
  }

  /** What `getCachedRegex` returns: the cached entry for the key, else a fresh compilation. */
  function CachedRegex(cache: RegexCache, o: RegexOracle, pattern: string, flags: string): Option<Regex> {
    var key := RegexKey(pattern, flags);
    if key in cache then cache[key] else Compile(o, pattern, flags)
  }

  /** `prompt.startsWith("\n") ? prompt.slice(1) : prompt` */
  function StripLeadingNewline(body: string): (r: string)
    ensures body == r || body == "\n" + r
    ensures StartsWith(body, "\n") ==> r == body[1..]
  {
    if StartsWith(body, "\n") then body[1..] else body
  }

  /** The rule a file yields (if any), the warning keys it raises in order, and the regex cache after it. */
  datatype FileOutcome = FileOutcome(rule: Option<Rule>, warnings: seq<string>, cache: RegexCache)

  /** The part of `parseMarkdownRuleFile` after the YAML header has been read. */
  function RuleFromHeader(path: string, meta: Meta, prompt: string, o: RegexOracle, cache: RegexCache): FileOutcome {
    var ew := if meta.enabled != YBool(false) && EnabledWarns(meta) then ["invalid-enabled:" + path] else [];
    match CheckHeader(meta, path)
    case Disabled => FileOutcome(None, [], cache)
    case Rejected(w) => FileOutcome(None, ew + [w], cache)
    case Accepted(ExactModel(model)) => FileOutcome(Some(Rule(Exact(model), prompt)), ew, cache)
    case Accepted(ModelPattern(pattern, flags)) =>
      var key := RegexKey(pattern, flags);
      if key in cache then
        match cache[key]
        case Some(re) => FileOutcome(Some(Rule(Pattern(re), prompt)), ew, cache)
        case None => FileOutcome(None, ew, cache)
      else if o.compiles(pattern, flags) then
        var re := Regex(pattern, flags);
        FileOutcome(Some(Rule(Pattern(re), prompt)), ew, cache[key := Some(re)])
      else
        FileOutcome(None, ew + ["invalid-regex:" + path + ":0:0"], cache[key := None])
  }

  /** The header and sections of a file that can be read and has well-formed frontmatter. */
  function HeaderOf(read: ReadResult, yaml: string -> YamlDoc): Option<(Meta, Sections)> {
    if !read.Contents? then None
    else match FrontmatterOf(read.text)
      case None => None
      case Some(sections) =>
        var doc := yaml(sections.frontmatter);
        if doc.Malformed? then None else Some((MetaOf(doc), sections))
  }

  /** `parseMarkdownRuleFile` as a value, given the file's read result and the regex cache before it. */
  function ParseRuleFile(path: string, read: ReadResult, yaml: string -> YamlDoc, o: RegexOracle, cache: RegexCache)
    : FileOutcome
  {
    match read
    case NotFound => FileOutcome(None, [], cache)
    case ReadFailed => FileOutcome(None, ["markdown-read:" + path], cache)
    case Contents(text) => ParseRuleText(path, text, yaml, o, cache)
  }

  /** The part of `parseMarkdownRuleFile` after the file was read: frontmatter, YAML, header. */
  function ParseRuleText(path: string, text: string, yaml: string -> YamlDoc, o: RegexOracle, cache: RegexCache)
    : FileOutcome
  {
    match FrontmatterOf(text)
    case None => FileOutcome(None, ["missing-frontmatter:" + path], cache)
    case Some(sections) => ParseSections(path, sections, yaml, o, cache)
  }

  /** The YAML step of `parseMarkdownRuleFile`, on the frontmatter and body already split apart. */
  function ParseSections(path: string, sections: Sections, yaml: string -> YamlDoc, o: RegexOracle, cache: RegexCache)
    : FileOutcome
  {
    var doc := yaml(sections.frontmatter);
    if doc.Malformed? then FileOutcome(None, ["invalid-yaml:" + path], cache)
    else RuleFromHeader(path, MetaOf(doc), StripLeadingNewline(sections.body), o, cache)
  }

  /** What a header yields, given the regex cache: the rule and its matcher, and the cache after. */
  lemma RuleFromHeaderSpec(path: string, meta: Meta, prompt: string, o: RegexOracle, cache: RegexCache)
    ensures var out := RuleFromHeader(path, meta, prompt, o, cache);
      match CheckHeader(meta, path)
      case Accepted(ExactModel(m)) => out.rule == Some(Rule(Exact(m), prompt)) && out.cache == cache
      case Accepted(ModelPattern(p, f)) =>
        && (out.rule.Some? <==> CachedRegex(cache, o, p, f).Some?)
        && (out.rule.Some? ==> out.rule == Some(Rule(Pattern(CachedRegex(cache, o, p, f).value), prompt)))
        && out.cache == cache[RegexKey(p, f) := CachedRegex(cache, o, p, f)]
      case _ => out.rule.None? && out.cache == cache
    ensures var out := RuleFromHeader(path, meta, prompt, o, cache);
      ("invalid-regex:" + path + ":0:0" in out.warnings) ==>
        exists p, f :: RegexKey(p, f) !in cache && !o.compiles(p, f) && out.cache == cache[RegexKey(p, f) := None]
  {
    var out := RuleFromHeader(path, meta, prompt, o, cache);
    match CheckHeader(meta, path)
    case Accepted(ModelPattern(p, f)) =>
      var key := RegexKey(p, f);
      if key in cache {
        assert cache[key := cache[key]] == cache;
        assert "invalid-regex:" + path + ":0:0" !in out.warnings;
      }
    case Accepted(ExactModel(m)) =>
      assert "invalid-regex:" + path + ":0:0" !in out.warnings;
    case Disabled =>
    case Rejected(w) =>
      assert "invalid-regex:" + path + ":0:0" != w;
      assert "invalid-regex:" + path + ":0:0" !in out.warnings;
  }

  /**
   * A file yields a rule exactly when it can be read and has frontmatter and a
   * well-formed header, and the header yields one; the rule's prompt is then
   * the body minus at most one leading newline.
   */
  lemma ParseRuleFileSpec(path: string, read: ReadResult, yaml: string -> YamlDoc, o: RegexOracle, cache: RegexCache)
    ensures var out, h := ParseRuleFile(path, read, yaml, o, cache), HeaderOf(read, yaml);
      && (h.None? ==> out.rule.None? && out.cache == cache)
      && (h.Some? ==> out == RuleFromHeader(path, h.value.0, StripLeadingNewline(h.value.1.body), o, cache))
  {
  }

  // ----- Matching -----

  predicate Matches(rule: Rule, key: string, o: RegexOracle) {
    match rule.matcher
    case Exact(model) => model != "" && model == key
    case Pattern(re) => o.accepts(re, key)
  }

  function FirstMatching(rules: seq<Rule>, key: string, o: RegexOracle): Option<Rule> {
    if |rules| == 0 then None
    else if Matches(rules[0], key, o) then Some(rules[0])
    else FirstMatching(rules[1..], key, o)
  }

  /** `matchRule` */
  function MatchRule(rules: Option<seq<Rule>>, key: string, o: RegexOracle): Option<Rule> {
    if rules.None? || |rules.value| == 0 then None else FirstMatching(rules.value, key, o)
  }

  /**
   * The chosen rule is the earliest one in list order that matches the key;
   * there is none exactly when no rule matches (in particular for no list or
   * an empty one).
   */
  lemma {:induction false} FirstMatchingIsFirst(rules: seq<Rule>, key: string, o: RegexOracle, i: nat)
    requires i < |rules| && Matches(rules[i], key, o)
    requires forall j :: 0 <= j < i ==> !Matches(rules[j], key, o)
    ensures FirstMatching(rules, key, o) == Some(rules[i])
  {
    if i > 0 {
      FirstMatchingIsFirst(rules[1..], key, o, i - 1);
    }
  }

  lemma {:induction false} FirstMatchingNone(rules: seq<Rule>, key: string, o: RegexOracle)
    ensures FirstMatching(rules, key, o).None? <==> forall i :: 0 <= i < |rules| ==> !Matches(rules[i], key, o)
  {
    if |rules| > 0 {
      FirstMatchingNone(rules[1..], key, o);
      assert forall i :: 1 <= i < |rules| ==> rules[1..][i - 1] == rules[i];
    }
  }

  lemma MatchRuleIsFirst(rules: seq<Rule>, key: string, o: RegexOracle)
    ensures forall i :: (0 <= i < |rules| && Matches(rules[i], key, o)
      && (forall j :: 0 <= j < i ==> !Matches(rules[j], key, o))) ==>
        MatchRule(Some(rules), key, o) == Some(rules[i])
    ensures MatchRule(Some(rules), key, o).None? <==> forall i :: 0 <= i < |rules| ==> !Matches(rules[i], key, o)
    ensures MatchRule(None, key, o).None?
  {
    forall i | 0 <= i < |rules| && Matches(rules[i], key, o) && (forall j :: 0 <= j < i ==> !Matches(rules[j], key, o))
      ensures MatchRule(Some(rules), key, o) == Some(rules[i])
    {
      FirstMatchingIsFirst(rules, key, o, i);
    }
    FirstMatchingNone(rules, key, o);
  }

  // ----- The rules directory -----

  /** Regular files whose lower-cased name ends in `.md` */
  predicate IsRuleFile(e: Entry) {
    e.isFile && EndsWith(ToLowerString(e.name), ".md")
  }

  function RuleFileNames(entries: seq<Entry>): seq<string> {
    if |entries| == 0 then []
    else (if IsRuleFile(entries[0]) then [entries[0].name] else []) + RuleFileNames(entries[1..])
  }

  /** The rule files of a listing, in ascending name order. */
  function MarkdownFiles(entries: seq<Entry>): seq<string> {
    Sort(RuleFileNames(entries))
  }

  lemma {:induction false} RuleFileNamesMembers(entries: seq<Entry>)
    ensures forall n :: n in RuleFileNames(entries) <==> exists e :: e in entries && IsRuleFile(e) && e.name == n
  {
    if |entries| > 0 {
      RuleFileNamesMembers(entries[1..]);
      assert forall e :: e in entries <==> e == entries[0] || e in entries[1..];
    }
  }

  /** Exactly the regular `.md` files are considered, sorted ascending. */
  lemma MarkdownFilesSpec(entries: seq<Entry>)
    ensures Sorted(MarkdownFiles(entries))
    ensures forall n :: n in MarkdownFiles(entries) <==> exists e :: e in entries && IsRuleFile(e) && e.name == n
  {
    RuleFileNamesMembers(entries);
    forall n ensures n in MarkdownFiles(entries) <==> n in RuleFileNames(entries) {
      assert n in MarkdownFiles(entries) <==> n in multiset(MarkdownFiles(entries));
      assert n in RuleFileNames(entries) <==> n in multiset(RuleFileNames(entries));
    }
  }

  /** How a stat result shows in the signature: the mtime, or `missing` when stat fails. */
  function StatText(mtime: Option<nat>): string {
    if mtime.Some? then NatToString(mtime.value) else "missing"
  }

  function SignaturePart(name: string, mtime: Option<nat>): string {
    name + ":" + StatText(mtime)
  }

  function SignatureParts(names: seq<string>, mtimes: seq<Option<nat>>): (r: seq<string>)
    requires |names| == |mtimes|
    ensures |r| == |names| && forall i :: 0 <= i < |r| ==> r[i] == SignaturePart(names[i], mtimes[i])
  {
    seq(|names|, i requires 0 <= i < |names| => SignaturePart(names[i], mtimes[i]))
  }

  /** `signatureParts.join("|")` */
  function Signature(names: seq<string>, mtimes: seq<Option<nat>>): string
    requires |names| == |mtimes|
  {
    Join(SignatureParts(names, mtimes), "|")
  }

  /** The mtimes `fs.stat` reports for the files of a directory. */
  function MtimesOf(fs: Fs, dir: string, names: seq<string>): (r: seq<Option<nat>>)
    ensures |r| == |names| && forall i :: 0 <= i < |names| ==> r[i] == Stat(fs, PathJoin(dir, names[i]))
  {
    seq(|names|, i requires 0 <= i < |names| => Stat(fs, PathJoin(dir, names[i])))
  }

  lemma StatTextShape(m: Option<nat>)
    ensures StatText(m) != "" && forall i :: 0 <= i < |StatText(m)| ==> StatText(m)[i] != '|'
  {
  }

  lemma StatTextInjective(a: Option<nat>, b: Option<nat>)
    requires a != b
    ensures StatText(a) != StatText(b)
  {
    if a.Some? && b.Some? {
      if StatText(a) == StatText(b) {
        NatToStringInjective(a.value, b.value);
      }
    } else if a.Some? {
      assert StatText(a)[0] != StatText(b)[0];
    } else if b.Some? {
      assert StatText(a)[0] != StatText(b)[0];
    }
  }

  /** Two different bar-free fields followed by nothing or by `|...` never give the same text. */
  lemma DistinctFields(x: string, y: string, t1: string, t2: string)
    requires x != y && '|' !in x && '|' !in y
    requires t1 == "" || t1[0] == '|'
    requires t2 == "" || t2[0] == '|'
    ensures x + t1 != y + t2
  {
    if |x| == |y| {
      assert (x + t1)[..|x|] == x && (y + t2)[..|y|] == y;
    } else if |x| < |y| {
      if t1 != "" {
        assert y[|x|] in y;
        assert (x + t1)[|x|] != (y + t2)[|x|];
      }
    } else {
      if t2 != "" {
        assert x[|y|] in x;
        assert (x + t1)[|y|] != (y + t2)[|y|];
      }
    }
  }

  lemma NoBar(m: Option<nat>)
    ensures '|' !in StatText(m)
  {
    StatTextShape(m);
  }

  /** The signature of a non-empty list: the first part, then `|` and the signature of the rest. */
  lemma SignatureCons(names: seq<string>, mtimes: seq<Option<nat>>)
    requires |names| == |mtimes| > 0
    ensures Signature(names, mtimes) == SignaturePart(names[0], mtimes[0])
      + (if |names| > 1 then "|" + Signature(names[1..], mtimes[1..]) else "")
  {
    var p := SignatureParts(names, mtimes);
    if |names| > 1 {
      assert SignatureParts(names[1..], mtimes[1..]) == p[1..];
      ConcatAssoc(p[0], "|", Join(p[1..], "|"));
    }
  }

  lemma PrefixDiffers(h: string, a: string, b: string)
    requires a != b
    ensures h + a != h + b
  {
    assert (h + a)[|h|..] == a;
    assert (h + b)[|h|..] == b;
  }

  /** Parts for the same name with different stat results differ, whatever bar-led tails follow them. */
  lemma PartsDiffer(name: string, a: Option<nat>, b: Option<nat>, t1: string, t2: string)
    requires a != b
    requires t1 == "" || t1[0] == '|'
    requires t2 == "" || t2[0] == '|'
    ensures SignaturePart(name, a) + t1 != SignaturePart(name, b) + t2
  {
    StatTextInjective(a, b);
    NoBar(a);
    NoBar(b);
    DistinctFields(StatText(a), StatText(b), t1, t2);
    PrefixDiffers(name + ":", StatText(a) + t1, StatText(b) + t2);
    ConcatAssoc(name + ":", StatText(a), t1);
    ConcatAssoc(name + ":", StatText(b), t2);
  }

  /**
   * The signature tells mtimes apart: for the same file names, a change of any
   * file's mtime (or of whether stat succeeds) changes the signature, so the
   * next load reparses the directory.
   */
  lemma {:induction false} SignatureDetectsTouch(names: seq<string>, m1: seq<Option<nat>>, m2: seq<Option<nat>>)
    requires |names| == |m1| == |m2| && m1 != m2
    ensures Signature(names, m1) != Signature(names, m2)
  {
    SignatureCons(names, m1);
    SignatureCons(names, m2);
    var tail1 := if |names| > 1 then "|" + Signature(names[1..], m1[1..]) else "";
    var tail2 := if |names| > 1 then "|" + Signature(names[1..], m2[1..]) else "";
    if m1[0] != m2[0] {
      PartsDiffer(names[0], m1[0], m2[0], tail1, tail2);
    } else {
      assert m1[1..] != m2[1..] by {
        assert m1 == [m1[0]] + m1[1..] && m2 == [m2[0]] + m2[1..];
      }
      SignatureDetectsTouch(names[1..], m1[1..], m2[1..]);
      PrefixDiffers("|", Signature(names[1..], m1[1..]), Signature(names[1..], m2[1..]));
      PrefixDiffers(SignaturePart(names[0], m1[0]), tail1, tail2);
    }
  }

  /** The rules collected from a list of files (in order), the warnings raised and the regex cache after. */
  datatype Collected = Collected(rules: seq<Rule>, warnings: seq<string>, cache: RegexCache)

  /** The collecting loop of `loadMarkdownRulesFromDir` as a value: each file in turn, threading the regex cache. */
  function ParseFiles(dir: string, names: seq<string>, fs: Fs, yaml: string -> YamlDoc, o: RegexOracle, cache: RegexCache)
    : Collected
    decreases |names|
  {
    if |names| == 0 then Collected([], [], cache)
    else
      var prev := ParseFiles(dir, names[..|names| - 1], fs, yaml, o, cache);
      var path := PathJoin(dir, names[|names| - 1]);
      var out := ParseRuleFile(path, ReadFile(fs, path), yaml, o, prev.cache);
      Collected(prev.rules + (if out.rule.Some? then [out.rule.value] else []), prev.warnings + out.warnings, out.cache)
  }

  /**
   * Rules keep file order: the rules of the first k files come first, so a
   * rule from an earlier file is always tried before one from a later file.
   */
  lemma {:induction false} ParseFilesPrefix(dir: string, names: seq<string>, k: nat, fs: Fs, yaml: string -> YamlDoc,
                                            o: RegexOracle, cache: RegexCache)
    requires k <= |names|
    ensures var all, pre := ParseFiles(dir, names, fs, yaml, o, cache), ParseFiles(dir, names[..k], fs, yaml, o, cache);
      pre.rules <= all.rules && pre.warnings <= all.warnings && |all.rules| <= |names|
    decreases |names|
  {
    if |names| > 0 {
      if k == |names| {
        assert names[..k] == names;
        ParseFilesPrefix(dir, names[..|names| - 1], |names| - 1, fs, yaml, o, cache);
        assert names[..|names| - 1][..|names| - 1] == names[..|names| - 1];
      } else {
        ParseFilesPrefix(dir, names[..|names| - 1], k, fs, yaml, o, cache);
        assert names[..|names| - 1][..k] == names[..k];
      }
    }
  }
  // ----- One load of a rules directory -----

  /** The cached outcome for a directory: the signature it was computed for and its rules. */
  datatype CacheEntry = CacheEntry(signature: string, rules: Option<seq<Rule>>)

  /** The rules a load returns, the two caches after it, and the warning keys it raises in order. */
  datatype DirLoad = DirLoad(rules: Option<seq<Rule>>, markdownCache: map<string, CacheEntry>, regexCache: RegexCache,
                             warnings: seq<string>)

  /** The stat-based signature of a directory's rule files. */
  function DirSignature(fs: Fs, dir: string, names: seq<string>): string {
    Signature(names, MtimesOf(fs, dir, names))
  }

  /** `loadMarkdownRulesFromDir` as a value, given the caches before the call. */
  function LoadDir(dir: string, fs: Fs, yaml: string -> YamlDoc, o: RegexOracle, mc: map<string, CacheEntry>,
                   rc: RegexCache): DirLoad
  {
    match ReadDir(fs, dir)
    case NoDir => DirLoad(None, mc, rc, [])
    case ListFailed => DirLoad(None, mc, rc, ["markdown-dir:" + dir])
    case Entries(entries) =>
      var names := MarkdownFiles(entries);
      if |names| == 0 then DirLoad(None, mc, rc, []) else LoadNames(dir, names, fs, yaml, o, mc, rc)
  }

  /** The part of a load after the rule files are known: the signature check, then the reparse. */
  function LoadNames(dir: string, names: seq<string>, fs: Fs, yaml: string -> YamlDoc, o: RegexOracle,
                     mc: map<string, CacheEntry>, rc: RegexCache): DirLoad
  {
    var signature := DirSignature(fs, dir, names);
    if dir in mc && mc[dir].signature == signature then DirLoad(mc[dir].rules, mc, rc, [])
    else
      var c := ParseFiles(dir, names, fs, yaml, o, rc);
      var rules := if |c.rules| > 0 then Some(c.rules) else None;
      DirLoad(rules, mc[dir := CacheEntry(signature, rules)], c.cache, c.warnings)
  }

  /**
   * A load whose signature equals the cached one returns the cached rules and
   * changes nothing; otherwise every rule file is reparsed (in sorted order),
   * the result is `None` exactly when no file yields a rule, and the entry for
   * the directory is replaced by the new signature and rules.
   */
  lemma LoadDirSpec(dir: string, fs: Fs, yaml: string -> YamlDoc, o: RegexOracle, mc: map<string, CacheEntry>,
                    rc: RegexCache)
    requires ReadDir(fs, dir).Entries? && |MarkdownFiles(ReadDir(fs, dir).entries)| > 0
    ensures var names := MarkdownFiles(ReadDir(fs, dir).entries);
      var signature, out := DirSignature(fs, dir, names), LoadDir(dir, fs, yaml, o, mc, rc);
      var c := ParseFiles(dir, names, fs, yaml, o, rc);
      && (dir in mc && mc[dir].signature == signature ==> out == DirLoad(mc[dir].rules, mc, rc, []))
      && (!(dir in mc && mc[dir].signature == signature) ==>
            && (out.rules.None? <==> |c.rules| == 0)
            && (out.rules.Some? ==> out.rules.value == c.rules)
            && out.markdownCache == mc[dir := CacheEntry(signature, out.rules)]
            && out.regexCache == c.cache && out.warnings == c.warnings)
  {
  }

  /** Without the directory, without any `.md` file, or when listing fails, a load yields no rules and keeps the caches. */
  lemma LoadDirEmpty(dir: string, fs: Fs, yaml: string -> YamlDoc, o: RegexOracle, mc: map<string, CacheEntry>,
                     rc: RegexCache)
    requires !ReadDir(fs, dir).Entries? || |MarkdownFiles(ReadDir(fs, dir).entries)| == 0
    ensures var out := LoadDir(dir, fs, yaml, o, mc, rc);
      && out.rules.None? && out.markdownCache == mc && out.regexCache == rc
      && out.warnings == (if ReadDir(fs, dir).ListFailed? then ["markdown-dir:" + dir] else [])
  {
  }

  /** After a load of listed rule files the directory's entry holds their signature and the rules returned. */
  lemma LoadNamesStores(dir: string, names: seq<string>, fs: Fs, yaml: string -> YamlDoc, o: RegexOracle,
                        mc: map<string, CacheEntry>, rc: RegexCache)
    ensures var out := LoadNames(dir, names, fs, yaml, o, mc, rc);
      dir in out.markdownCache && out.markdownCache[dir] == CacheEntry(DirSignature(fs, dir, names), out.rules)
  {
  }

  /** A load against an entry with another signature reparses the files. */
  lemma LoadNamesMiss(dir: string, names: seq<string>, fs: Fs, yaml: string -> YamlDoc, o: RegexOracle,
                      mc: map<string, CacheEntry>, rc: RegexCache)
    requires dir in mc && mc[dir].signature != DirSignature(fs, dir, names)
    ensures var out, c := LoadNames(dir, names, fs, yaml, o, mc, rc), ParseFiles(dir, names, fs, yaml, o, rc);
      out.rules == (if |c.rules| > 0 then Some(c.rules) else None) && out.warnings == c.warnings
  {
  }

  /** Loading the same, unchanged directory again returns the same rules from the cache, with no warning and no parsing. */
  lemma LoadDirRepeat(dir: string, fs: Fs, yaml: string -> YamlDoc, o: RegexOracle, mc: map<string, CacheEntry>,
                      rc: RegexCache, rc2: RegexCache)
    requires ReadDir(fs, dir).Entries?
    ensures var first := LoadDir(dir, fs, yaml, o, mc, rc);
      var second := LoadDir(dir, fs, yaml, o, first.markdownCache, rc2);
      second == DirLoad(first.rules, first.markdownCache, rc2, [])
  {
    var names := MarkdownFiles(ReadDir(fs, dir).entries);
    if |names| > 0 {
      var signature := DirSignature(fs, dir, names);
      var first := LoadNames(dir, names, fs, yaml, o, mc, rc);
      assert LoadDir(dir, fs, yaml, o, mc, rc) == first;
      LoadNamesStores(dir, names, fs, yaml, o, mc, rc);
      assert LoadDir(dir, fs, yaml, o, first.markdownCache, rc2)
          == LoadNames(dir, names, fs, yaml, o, first.markdownCache, rc2);
    }
  }

  /**
   * Touching a rule file (changing its mtime, or whether stat succeeds)
   * between two loads of a directory with the same listing makes the second
   * load reparse: its rules are those the files yield now.
   */
  lemma TouchedDirReparses(dir: string, fs1: Fs, fs2: Fs, yaml: string -> YamlDoc, o: RegexOracle,
                           mc: map<string, CacheEntry>, rc: RegexCache, rc2: RegexCache, touched: string)
    requires ReadDir(fs1, dir).Entries? && ReadDir(fs2, dir) == ReadDir(fs1, dir)
    requires touched in MarkdownFiles(ReadDir(fs1, dir).entries)
    requires Stat(fs1, PathJoin(dir, touched)) != Stat(fs2, PathJoin(dir, touched))
    ensures var names := MarkdownFiles(ReadDir(fs2, dir).entries);
      var first := LoadDir(dir, fs1, yaml, o, mc, rc);
      var second := LoadDir(dir, fs2, yaml, o, first.markdownCache, rc2);
      var c := ParseFiles(dir, names, fs2, yaml, o, rc2);
      second.rules == (if |c.rules| > 0 then Some(c.rules) else None) && second.warnings == c.warnings
  {
    var names := MarkdownFiles(ReadDir(fs1, dir).entries);
    var i :| 0 <= i < |names| && names[i] == touched;
    var m1, m2 := MtimesOf(fs1, dir, names), MtimesOf(fs2, dir, names);
    assert m1[i] != m2[i];
    SignatureDetectsTouch(names, m1, m2);
    var first := LoadNames(dir, names, fs1, yaml, o, mc, rc);
    assert LoadDir(dir, fs1, yaml, o, mc, rc) == first;
    LoadNamesStores(dir, names, fs1, yaml, o, mc, rc);
    LoadNamesMiss(dir, names, fs2, yaml, o, first.markdownCache, rc2);
    assert LoadDir(dir, fs2, yaml, o, first.markdownCache, rc2)
        == LoadNames(dir, names, fs2, yaml, o, first.markdownCache, rc2);
  }
}
