/**
 * `loadConfigText` of config-d.ts: `{env:NAME}` substitution, `{file:PATH}`
 * substitution with the commented-line skip, the JSON string escaping of the
 * inserted file contents, and the line/column report of parse errors.
 */
module ConfigText {
  import opened Wrappers
  import opened Text
  import opened FileSystem
  import opened JsonMerge

  const EnvOpen := "{env:"
  const FileOpen := "{file:"

  lemma OccursOneChar(s: string, c: char, k: nat)
    requires k < |s|
    ensures OccursAt(s, [c], k) <==> s[k] == c
  {
    if s[k] == c {
      assert s[k..k + 1] == [c];
    }
  }

  // ---------------------------------------------------------------------------
  // References: the regular expressions /\{env:([^}]+)\}/ and /\{file:[^}]+\}/

  /**
   * The length of the reference `open NAME }` at the very start of `s`, where
   * NAME is one or more characters other than `}`, or None when none starts here.
   */
  function RefAt(s: string, open: string): (r: Option<nat>)
    ensures r.Some? ==> |open| < r.value - 1 < |s| && StartsWith(s, open) && s[r.value - 1] == '}'
                        && NoChar(s[|open|..r.value - 1], '}')
  {
    if !StartsWith(s, open) then None
    else match IndexFrom(s, "}", |open|)
      case None => None
      case Some(j) =>
        if j > |open| then
          forall k | |open| <= k < j ensures s[k] != '}' {
            OccursOneChar(s, '}', k);
          }
          OccursOneChar(s, '}', j);
          Some(j + 1)
        else None
  }

  /** A well-formed reference at the start of the text is recognised with its full length. */
  lemma RefAtOf(open: string, name: string, rest: string)
    requires |name| > 0 && NoChar(name, '}')
    ensures RefAt(open + name + "}" + rest, open) == Some(|open| + |name| + 1)
  {
    var s := open + name + "}" + rest;
    var p := |open| + |name|;
    assert s[..|open|] == open;
    assert s[p] == '}';
    OccursOneChar(s, '}', p);
    forall k | |open| <= k < p ensures !OccursAt(s, "}", k) {
      OccursOneChar(s, '}', k);
      assert s[k] == name[k - |open|];
    }
  }

  /** No reference starts at a character other than `{`. */
  lemma RefAtNeedsBrace(s: string, open: string)
    requires |open| > 0 && open[0] == '{' && |s| > 0 && s[0] != '{'
    ensures RefAt(s, open).None?
  {
    assert !StartsWith(s, open) by {
      if |open| <= |s| {
        assert s[..|open|][0] == s[0];
      }
    }
  }

  // ---------------------------------------------------------------------------
  // {env:NAME}

  /** `process.env[name] || ""`: unset and empty both give the empty text. */
  function EnvValue(env: map<string, string>, name: string): string {
    if name in env then env[name] else ""
  }

  /**
   * `text.replace(/\{env:([^}]+)\}/g, ...)`: one left-to-right pass, replacing
   * each reference by its value and copying every other character.
   */
  function SubstEnv(s: string, env: map<string, string>): string
    decreases |s|
  {
    if |s| == 0 then ""
    else match RefAt(s, EnvOpen)
      case Some(n) => EnvValue(env, s[|EnvOpen|..n - 1]) + SubstEnv(s[n..], env)
      case None => [s[0]] + SubstEnv(s[1..], env)
  }

  /** Where no reference starts, the first character is copied and the scan moves on by one. */
  lemma SubstEnvCopies(s: string, env: map<string, string>)
    requires |s| > 0 && RefAt(s, EnvOpen).None?
    ensures SubstEnv(s, env) == [s[0]] + SubstEnv(s[1..], env)
  {
  }

  /** Text without `{` passes through unchanged. */
  lemma {:induction false} SubstEnvKeepsText(a: string, b: string, env: map<string, string>)
    requires NoChar(a, '{')
    ensures SubstEnv(a + b, env) == a + SubstEnv(b, env)
    decreases |a|
  {
    if |a| > 0 {
      var s := a + b;
      calc {
        SubstEnv(s, env);
        == { RefAtNeedsBrace(s, EnvOpen); SubstEnvCopies(s, env); assert s[0] == a[0] && s[1..] == a[1..] + b; }
        [a[0]] + SubstEnv(a[1..] + b, env);
        == { SubstEnvKeepsText(a[1..], b, env); }
        [a[0]] + (a[1..] + SubstEnv(b, env));
        == { assert a == [a[0]] + a[1..]; }
        a + SubstEnv(b, env);
      }
    } else {
      assert a + b == b;
    }
  }

  /** A reference `{env:NAME}` is replaced by the value of NAME, and the scan continues after it. */
  lemma SubstEnvReplacesRef(name: string, rest: string, env: map<string, string>)
    requires |name| > 0 && NoChar(name, '}')
    ensures SubstEnv(EnvOpen + name + "}" + rest, env) == EnvValue(env, name) + SubstEnv(rest, env)
  {
    var s := EnvOpen + name + "}" + rest;
    RefAtOf(EnvOpen, name, rest);
    var n := |EnvOpen| + |name| + 1;
    assert s[|EnvOpen|..n - 1] == name;
    assert s[n..] == rest;
  }

  /**
   * The pass is not repeated: a `{` before a reference and the text after it
   * can form a new reference, which survives. With A unset,
   * `{{env:A}env:B}` becomes `{env:B}`.
   */
  lemma SubstEnvCanLeaveRef(a: string, b: string, env: map<string, string>)
    requires |a| > 0 && NoChar(a, '}') && a !in env
    requires NoChar(b, '{')
    ensures SubstEnv("{" + (EnvOpen + a + "}" + ("env:" + b)), env) == "{" + ("env:" + b)
  {
    var rest := "env:" + b;
    var t := EnvOpen + a + "}" + rest;
    var s := "{" + t;
    assert s[1] == '{' && EnvOpen[1] == 'e';
    assert !StartsWith(s, EnvOpen) by {
      if |EnvOpen| <= |s| {
        assert s[..|EnvOpen|][1] == s[1];
      }
    }
    calc {
      SubstEnv(s, env);
      == { SubstEnvCopies(s, env); assert s[1..] == t && [s[0]] == "{"; }
      "{" + SubstEnv(t, env);
      == { SubstEnvReplacesRef(a, rest, env); assert EnvValue(env, a) == ""; }
      "{" + ("" + SubstEnv(rest, env));
      == { assert "" + SubstEnv(rest, env) == SubstEnv(rest, env); }
      "{" + SubstEnv(rest, env);
      == { assert rest + "" == rest; SubstEnvKeepsText(rest, "", env); }
      "{" + (rest + SubstEnv("", env));
      == { assert rest + "" == rest; }
      "{" + rest;
    }
  }

  /** Every `{` of the text opens a well-formed `{env:NAME}` reference. */
  predicate BracesOpenRefs(s: string)
    decreases |s|
  {
    if |s| == 0 then true
    else match RefAt(s, EnvOpen)
      case Some(n) => BracesOpenRefs(s[n..])
      case None => s[0] != '{' && BracesOpenRefs(s[1..])
  }

  /**
   * When every `{` of the text opens a reference and no value contains `{`,
   * the substituted text has no `{` at all, so no `{env:` survives.
   */
  lemma {:induction false} SubstEnvClears(s: string, env: map<string, string>)
    requires BracesOpenRefs(s)
    requires forall name :: name in env ==> NoChar(env[name], '{')
    ensures NoChar(SubstEnv(s, env), '{')
    decreases |s|
  {
    if |s| > 0 {
      match RefAt(s, EnvOpen)
      case Some(n) =>
        SubstEnvClears(s[n..], env);
      case None =>
        SubstEnvClears(s[1..], env);
    }
  }

  // ---------------------------------------------------------------------------
  // {file:PATH}

  /** The reference texts of `working.match(/\{file:[^}]+\}/g)`, leftmost and non-overlapping. */
  function FileMatches(s: string): seq<string>
    decreases |s|
  {
    if |s| == 0 then []
    else match RefAt(s, FileOpen)
      case Some(n) => [s[..n]] + FileMatches(s[n..])
      case None => FileMatches(s[1..])
  }

  /** `{file:` followed by one or more characters other than `}`, then `}`. */
  predicate IsFileRef(m: string) {
    |m| > |FileOpen| + 1 && StartsWith(m, FileOpen) && m[|m| - 1] == '}' && NoChar(m[|FileOpen|..|m| - 1], '}')
  }

  lemma OccursShift(s: string, t: string, n: nat, k: nat)
    requires n <= |s| && OccursAt(s[n..], t, k)
    ensures OccursAt(s, t, n + k)
  {
    assert s[n..][k..k + |t|] == s[n + k..n + k + |t|];
  }

  /** Each match is a well-formed file reference that occurs in the text. */
  lemma {:induction false} FileMatchesSpec(s: string)
    ensures forall m :: m in FileMatches(s) ==> IsFileRef(m) && Contains(s, m)
    decreases |s|
  {
    if |s| > 0 {
      var found := RefAt(s, FileOpen);
      var n := if found.Some? then found.value else 1;
      if found.Some? {
        var m := s[..n];
        assert m[..|FileOpen|] == s[..|FileOpen|];
        assert m[|FileOpen|..|m| - 1] == s[|FileOpen|..n - 1];
        assert OccursAt(s, m, 0);
        ContainsIff(s, m);
      }
      FileMatchesSpec(s[n..]);
      forall m | m in FileMatches(s[n..]) ensures Contains(s, m) {
        ContainsIff(s[n..], m);
        var k :| 0 <= k <= |s[n..]| && OccursAt(s[n..], m, k);
        OccursShift(s, m, n, k);
        ContainsIff(s, m);
      }
    }
  }

  /** A text in which `{file:` never occurs has no file references. */
  lemma {:induction false} FileMatchesNone(s: string)
    requires !Contains(s, FileOpen)
    ensures FileMatches(s) == []
    decreases |s|
  {
    if |s| > 0 {
      ContainsIff(s, FileOpen);
      assert !OccursAt(s, FileOpen, 0);
      forall k | 0 <= k <= |s[1..]| ensures !OccursAt(s[1..], FileOpen, k) {
        assert !OccursAt(s, FileOpen, 1 + k);
        if k + |FileOpen| <= |s[1..]| {
          assert s[1..][k..k + |FileOpen|] == s[1 + k..1 + k + |FileOpen|];
        }
      }
      ContainsIff(s[1..], FileOpen);
      FileMatchesNone(s[1..]);
    }
  }

  /**
   * A well-formed reference after text without `{` is the first match, and
   * the matches that follow are those of the text after it.
   */
  lemma {:induction false} FileMatchesFindsRef(a: string, path: string, b: string)
    requires NoChar(a, '{') && |path| > 0 && NoChar(path, '}')
    ensures FileMatches(a + FileOpen + path + "}" + b) == [FileOpen + path + "}"] + FileMatches(b)
    decreases |a|
  {
    var s := a + FileOpen + path + "}" + b;
    if |a| == 0 {
      assert s == FileOpen + path + "}" + b;
      RefAtOf(FileOpen, path, b);
      var n := |FileOpen| + |path| + 1;
      assert s[..n] == FileOpen + path + "}" && s[n..] == b;
    } else {
      RefAtNeedsBrace(s, FileOpen);
      assert s[1..] == a[1..] + FileOpen + path + "}" + b;
      FileMatchesFindsRef(a[1..], path, b);
    }
  }

  /** `match.replace(/^\{file:/, "").replace(/\}$/, "")` */
  function RefPath(m: string): string {
    var a := if StartsWith(m, FileOpen) then m[|FileOpen|..] else m;
    if EndsWith(a, "}") then a[..|a| - 1] else a
  }

  lemma RefPathOf(p: string)
    ensures RefPath(FileOpen + p + "}") == p
  {
    var m := FileOpen + p + "}";
    assert m[..|FileOpen|] == FileOpen;
    assert m[|FileOpen|..] == p + "}";
    assert (p + "}")[..|p|] == p;
  }

  /** `~/rest` is under the home directory and `~` is the home directory itself. */
  function ExpandHome(ref: string, home: string): string {
    if StartsWith(ref, "~/") then PathJoin(home, ref[2..])
    else if ref == "~" then home
    else ref
  }

  predicate IsAbsolute(p: string) {
    StartsWith(p, "/")
  }

  /** `path.dirname` of a path without a trailing `/`. */
  function Dirname(p: string): string {
    match LastIndexOf(p, '/')
    case None => "."
    case Some(i) => if i == 0 then "/" else p[..i]
  }

  /** The file a reference names: expanded, then absolute as is or relative to the config file's directory. */
  function ResolveRef(m: string, home: string, configFile: string): (r: string)
    ensures var e := ExpandHome(RefPath(m), home);
      r == (if IsAbsolute(e) then e else PathJoin(Dirname(configFile), e))
  {
    var expanded := ExpandHome(RefPath(m), home);
    if IsAbsolute(expanded) then expanded else PathJoin(Dirname(configFile), expanded)
  }

  /**
   * Where `{file:PATH}` points: `~/rest` under an absolute home directory and
   * `~` itself at it, an absolute path as it is, and any other path under the
   * config file's directory.
   */
  lemma ResolveRefCases(p: string, home: string, configFile: string)
    ensures var r := ResolveRef(FileOpen + p + "}", home, configFile);
      && (StartsWith(p, "~/") && IsAbsolute(home) ==> r == PathJoin(home, p[2..]))
      && (p == "~" && IsAbsolute(home) ==> r == home)
      && (IsAbsolute(p) ==> r == p)
      && (!IsAbsolute(p) && !StartsWith(p, "~/") && p != "~" ==> r == PathJoin(Dirname(configFile), p))
  {
    RefPathOf(p);
    if IsAbsolute(p) {
      assert p[0] == p[..1][0] == '/';
      assert !StartsWith(p, "~/") && p != "~";
    }
    if StartsWith(p, "~/") && IsAbsolute(home) {
      assert PathJoin(home, p[2..])[..1] == home[..1];
    }
  }

  /** `lines.findIndex((line) => line.includes(match))` */
  function FirstLineWith(lines: seq<string>, m: string): (r: Option<nat>)
    ensures r.Some? ==> r.value < |lines| && Contains(lines[r.value], m)
                        && forall k :: 0 <= k < r.value ==> !Contains(lines[k], m)
    ensures r.None? ==> forall k :: 0 <= k < |lines| ==> !Contains(lines[k], m)
  {
    if |lines| == 0 then None
    else if Contains(lines[0], m) then Some(0)
    else match FirstLineWith(lines[1..], m)
      case None => None
      case Some(k) => Some(k + 1)
  }

  predicate IsCommentLine(line: string) {
    StartsWith(Trim(line), "//")
  }

  /** A reference is skipped when the first line containing it is a `//` comment. */
  predicate SkipRef(lines: seq<string>, m: string) {
    var found := FirstLineWith(lines, m);
    found.Some? && IsCommentLine(lines[found.value])
  }

  // ---------------------------------------------------------------------------
  // JSON.stringify(content).slice(1, -1)

  function HexDigit(d: nat): char
    requires d < 16
  {
    if d < 10 then DigitChar(d) else ('a' as int + d - 10) as char
  }

  function HexValue(c: char): Option<nat> {
    if '0' <= c <= '9' then Some(c as int - '0' as int)
    else if 'a' <= c <= 'f' then Some(c as int - 'a' as int + 10)
    else if 'A' <= c <= 'F' then Some(c as int - 'A' as int + 10)
    else None
  }

  lemma HexRoundTrip(d: nat)
    requires d < 16
    ensures HexValue(HexDigit(d)) == Some(d)
  {
  }

  /** How `JSON.stringify` writes one character inside a string literal. */
  function EscapeChar(c: char): string {
    if c == '"' then "\\\""
    else if c == '\\' then "\\\\"
    else if c == '\U{0008}' then "\\b"
    else if c == '\U{000C}' then "\\f"
    else if c == '\n' then "\\n"
    else if c == '\r' then "\\r"
    else if c == '\t' then "\\t"
    else if (c as int) < 0x20 then "\\u00" + [HexDigit(c as int / 16), HexDigit(c as int % 16)]
    else [c]
  }

  /** `JSON.stringify(s).slice(1, -1)`: the body of the string literal. */
  function Escape(s: string): string
    decreases |s|
  {
    if |s| == 0 then "" else EscapeChar(s[0]) + Escape(s[1..])
  }

  /** The character a JSON escape (the text after the backslash) stands for, and the length it takes. */
  function DecodeEscape(s: string): Option<(char, nat)> {
    if |s| == 0 then None
    else if s[0] == '"' || s[0] == '\\' || s[0] == '/' then Some((s[0], 1))
    else if s[0] == 'b' then Some(('\U{0008}', 1))
    else if s[0] == 'f' then Some(('\U{000C}', 1))
    else if s[0] == 'n' then Some(('\n', 1))
    else if s[0] == 'r' then Some(('\r', 1))
    else if s[0] == 't' then Some(('\t', 1))
    else if s[0] == 'u' && |s| >= 5 then
      match (HexValue(s[1]), HexValue(s[2]), HexValue(s[3]), HexValue(s[4]))
      case (Some(a), Some(b), Some(c), Some(d)) =>
        var code := a * 4096 + b * 256 + c * 16 + d;
        if a < 16 && b < 16 && c < 16 && d < 16 && (code < 0xD800 || 0xE000 <= code) then Some((code as char, 5))
        else None
      case _ => None
    else None
  }

  /** The text a JSON string body stands for, or None when it is not a valid body. */
  function Unescape(s: string): Option<string>
    decreases |s|
  {
    if |s| == 0 then Some("")
    else if s[0] == '\\' then
      match DecodeEscape(s[1..])
      case None => None
      case Some((c, n)) =>
        match Unescape(s[1 + n..])
        case None => None
        case Some(t) => Some([c] + t)
    else if s[0] == '"' || (s[0] as int) < 0x20 then None
    else
      match Unescape(s[1..])
      case None => None
      case Some(t) => Some([s[0]] + t)
  }

  /** A control character written as `\u00XY` decodes back to itself, using six characters. */
  lemma UnicodeEscapeDecodes(c: char, rest: string)
    requires (c as int) < 0x20 && c != '\U{0008}' && c != '\U{000C}' && c != '\n' && c != '\r' && c != '\t'
    ensures |EscapeChar(c)| == 6 && DecodeEscape((EscapeChar(c) + rest)[1..]) == Some((c, 5))
  {
    var s := EscapeChar(c) + rest;
    var hi, lo := c as int / 16, c as int % 16;
    HexRoundTrip(hi);
    HexRoundTrip(lo);
    assert EscapeChar(c) == "\\u00" + [HexDigit(hi), HexDigit(lo)];
    var t := s[1..];
    assert t[0] == 'u' && t[1] == '0' && t[2] == '0' && t[3] == HexDigit(hi) && t[4] == HexDigit(lo);
    assert HexValue('0') == Some(0);
    assert hi * 16 + lo == c as int && (0 * 4096 + 0 * 256 + hi * 16 + lo) as char == c;
  }

  lemma UnescapeEscapeChar(c: char, rest: string)
    ensures Unescape(EscapeChar(c) + rest) == match Unescape(rest) case None => None case Some(t) => Some([c] + t)
  {
    var s := EscapeChar(c) + rest;
    if (c as int) < 0x20 && c != '\U{0008}' && c != '\U{000C}' && c != '\n' && c != '\r' && c != '\t' {
      UnicodeEscapeDecodes(c, rest);
      assert s[6..] == rest;
    } else if |EscapeChar(c)| == 2 {
      assert s[2..] == rest;
    } else {
      assert s[1..] == rest;
    }
  }

  /** Decoding the escaped text gives the file contents back: the config value is the trimmed file. */
  lemma {:induction false} UnescapeEscape(s: string)
    ensures Unescape(Escape(s)) == Some(s)
    decreases |s|
  {
    if |s| > 0 {
      UnescapeEscape(s[1..]);
      UnescapeEscapeChar(s[0], Escape(s[1..]));
      assert s == [s[0]] + s[1..];
    }
  }

  lemma {:induction false} EscapeKeepsDollar(s: string)
    requires NoChar(s, '"') && NoChar(s, '\\') && forall i :: 0 <= i < |s| ==> (s[i] as int) >= 0x20
    ensures Escape(s) == s
    decreases |s|
  {
    if |s| > 0 {
      EscapeKeepsDollar(s[1..]);
      assert s == [s[0]] + s[1..];
    }
  }

  // ---------------------------------------------------------------------------
  // working.replace(match, replacement)

  /** The first occurrence of `pat` replaced by `repl`, taken literally. */
  function ReplaceFirst(s: string, pat: string, repl: string): string {
    match IndexOf(s, pat)
    case None => s
    case Some(i) => s[..i] + repl + s[i + |pat|..]
  }

  /**
   * GetSubstitution of ECMAScript for a string pattern: `$$` is `$`, `$&` the
   * matched text, `` $` `` the text before it and `$'` the text after it;
   * every other `$` (no capture groups exist) is kept.
   */
  function ExpandReplacement(r: string, matched: string, before: string, after: string): string
    decreases |r|
  {
    if |r| == 0 then ""
    else if r[0] == '$' && |r| >= 2 && r[1] == '$' then "$" + ExpandReplacement(r[2..], matched, before, after)
    else if r[0] == '$' && |r| >= 2 && r[1] == '&' then matched + ExpandReplacement(r[2..], matched, before, after)
    else if r[0] == '$' && |r| >= 2 && r[1] == '`' then before + ExpandReplacement(r[2..], matched, before, after)
    else if r[0] == '$' && |r| >= 2 && r[1] == '\'' then after + ExpandReplacement(r[2..], matched, before, after)
    else [r[0]] + ExpandReplacement(r[1..], matched, before, after)
  }

  /** `String.prototype.replace` with a string pattern and a string replacement, as the source calls it. */
  function ReplaceFirstAsWritten(s: string, pat: string, repl: string): string {
    match IndexOf(s, pat)
    case None => s
    case Some(i) => s[..i] + ExpandReplacement(repl, pat, s[..i], s[i + |pat|..]) + s[i + |pat|..]
  }

  lemma {:induction false} ExpandWithoutDollar(r: string, matched: string, before: string, after: string)
    requires NoChar(r, '$')
    ensures ExpandReplacement(r, matched, before, after) == r
    decreases |r|
  {
    if |r| > 0 {
      ExpandWithoutDollar(r[1..], matched, before, after);
      assert r == [r[0]] + r[1..];
    }
  }

  /** Without `$` in the file contents both readings agree. */
  lemma ReplaceFirstAgrees(s: string, pat: string, repl: string)
    requires NoChar(repl, '$')
    ensures ReplaceFirstAsWritten(s, pat, repl) == ReplaceFirst(s, pat, repl)
  {
    if IndexOf(s, pat).Some? {
      var i := IndexOf(s, pat).value;
      ExpandWithoutDollar(repl, pat, s[..i], s[i + |pat|..]);
    }
  }

  /**
   * The replacement is read as a pattern: a config line holding only the
   * reference ends up with `$` for a file containing `$$`, and the reference
   * itself stays in place for a file containing `$&`.
   */
  lemma DollarPatternsInFileContents(m: string)
    requires |m| > 0
    ensures ReplaceFirstAsWritten(m, m, Escape("$$")) == "$"
    ensures ReplaceFirstAsWritten(m, m, Escape("$&")) == m
    ensures ReplaceFirst(m, m, Escape("$$")) == "$$"
  {
    EscapeKeepsDollar("$$");
    EscapeKeepsDollar("$&");
    assert OccursAt(m, m, 0);
    assert IndexOf(m, m) == Some(0);
    assert m[..0] == "" && m[|m|..] == "";
    assert ExpandReplacement("$$"[2..], m, "", "") == "";
    assert ExpandReplacement("$&"[2..], m, "", "") == "";
  }

  /** The JSON escaping never writes a `$` of its own. */
  lemma {:induction false} EscapeNoDollar(s: string)
    requires NoChar(s, '$')
    ensures NoChar(Escape(s), '$')
    decreases |s|
  {
    if |s| > 0 {
      EscapeNoDollar(s[1..]);
      var c := s[0];
      if (c as int) < 0x20 && c != '\U{0008}' && c != '\U{000C}' && c != '\n' && c != '\r' && c != '\t' {
        assert HexDigit(c as int / 16) != '$' && HexDigit(c as int % 16) != '$';
      }
      assert NoChar(EscapeChar(c), '$');
    }
  }

  /**
   * The literal replacement puts the escaped contents where the first
   * occurrence was, keeps the text around it, and the inserted text decodes
   * to exactly the contents.
   */
  lemma ReplaceFirstSpec(s: string, pat: string, content: string)
    requires Contains(s, pat)
    ensures var i := IndexOf(s, pat).value;
      var e := Escape(content);
      var r := ReplaceFirst(s, pat, Escape(content));
      && OccursAt(s, pat, i) && (forall k :: 0 <= k < i ==> !OccursAt(s, pat, k))
      && r[..i] == s[..i] && r[i..i + |e|] == e && r[i + |e|..] == s[i + |pat|..]
      && Unescape(r[i..i + |e|]) == Some(content)
  {
    UnescapeEscape(content);
  }

  // ---------------------------------------------------------------------------
  // Parse errors

  function CountNewlines(s: string): nat
    decreases |s|
  {
    if |s| == 0 then 0 else (if s[0] == '\n' then 1 else 0) + CountNewlines(s[1..])
  }

  lemma {:induction false} CountAppend(a: string, b: string)
    ensures CountNewlines(a + b) == CountNewlines(a) + CountNewlines(b)
    decreases |a|
  {
    if |a| > 0 {
      assert (a + b)[1..] == a[1..] + b;
      assert (a + b)[0] == a[0];
      assert CountNewlines(a + b) == (if a[0] == '\n' then 1 else 0) + CountNewlines(a[1..] + b);
      CountAppend(a[1..], b);
    } else {
      assert a + b == b;
    }
  }

  lemma {:induction false} CountNone(s: string)
    requires NoChar(s, '\n')
    ensures CountNewlines(s) == 0
    decreases |s|
  {
    if |s| > 0 {
      CountNone(s[1..]);
    }
  }

  /** Where the first newline is, as `indexOf("\n")` finds it. */
  lemma FirstNewline(s: string)
    ensures IndexOf(s, "\n").None? ==> NoChar(s, '\n')
    ensures IndexOf(s, "\n").Some? ==>
      var i := IndexOf(s, "\n").value;
      i < |s| && s[i] == '\n' && NoChar(s[..i], '\n')
  {
    match IndexOf(s, "\n")
    case None =>
      forall k | 0 <= k < |s| ensures s[k] != '\n' {
        OccursOneChar(s, '\n', k);
      }
    case Some(i) =>
      forall k | 0 <= k < i ensures s[..i][k] != '\n' {
        OccursOneChar(s, '\n', k);
      }
      OccursOneChar(s, '\n', i);
  }

  /** Splitting at `\n` gives one piece more than there are newlines. */
  lemma {:induction false} SplitCount(s: string)
    ensures |SplitOn(s, "\n")| == CountNewlines(s) + 1
    decreases |s|
  {
    FirstNewline(s);
    match IndexOf(s, "\n")
    case None =>
      CountNone(s);
    case Some(i) =>
      var t := s[i + 1..];
      SplitCount(t);
      CountNone(s[..i]);
      assert s == s[..i] + ([s[i]] + t);
      CountAppend(s[..i], [s[i]] + t);
      CountAppend([s[i]], t);
  }

  /** `last` is the text after the last newline of `s` (all of `s` when it has none). */
  predicate IsLastLine(s: string, last: string) {
    && |last| <= |s| && s[|s| - |last|..] == last && NoChar(last, '\n')
    && (|last| == |s| || s[|s| - |last| - 1] == '\n')
  }

  /** The last piece of the split is the text after the last newline. */
  lemma {:induction false} SplitLast(s: string)
    ensures var pieces := SplitOn(s, "\n"); IsLastLine(s, pieces[|pieces| - 1])
    decreases |s|
  {
    FirstNewline(s);
    match IndexOf(s, "\n")
    case None =>
    case Some(i) =>
      var t := s[i + 1..];
      SplitLast(t);
      var rest := SplitOn(t, "\n");
      assert SplitOn(s, "\n") == [s[..i]] + rest;
      SuffixAfterNewline(s, i, rest[|rest| - 1]);
  }

  lemma SuffixAfterNewline(s: string, i: nat, last: string)
    requires i < |s| && s[i] == '\n' && IsLastLine(s[i + 1..], last)
    ensures IsLastLine(s, last)
  {
    var t := s[i + 1..];
    assert s[|s| - |last|..] == t[|t| - |last|..];
    if |last| < |t| {
      assert s[|s| - |last| - 1] == t[|t| - |last| - 1];
    }
  }

  lemma CountPrefix(s: string, n: nat)
    requires n <= |s|
    ensures CountNewlines(s[..n]) <= CountNewlines(s)
  {
    assert s == s[..n] + s[n..];
    CountAppend(s[..n], s[n..]);
  }

  /** One issue of the JSONC parser: the printed error code and the offset it reports. */
  datatype ParseIssue = ParseIssue(code: string, offset: nat)

  /** What the JSONC parser returns: a value (even in the presence of errors) and its issues. */
  datatype Parsed = Parsed(value: Json, issues: seq<ParseIssue>)

  datatype Position = Position(line: nat, column: nat)

  function Min(a: nat, b: nat): nat {
    if a <= b then a else b
  }

  /** `working.substring(0, offset).split("\n")`: line = number of pieces, column = last piece's length + 1. */
  function ErrorPosition(working: string, offset: nat): Position {
    var before := SplitOn(working[..Min(offset, |working|)], "\n");
    Position(|before|, |before[|before| - 1]| + 1)
  }

  /**
   * The reported line is one more than the newlines before the offset; the
   * column is one more than the distance from the last of them (or from the
   * start); and the line exists, so the `?? ""` fallback never applies.
   */
  lemma ErrorPositionSpec(working: string, offset: nat)
    ensures var p := working[..Min(offset, |working|)];
      var pos := ErrorPosition(working, offset);
      && pos.line == CountNewlines(p) + 1
      && pos.line <= |SplitOn(working, "\n")|
      && 1 <= pos.column <= |p| + 1 && IsLastLine(p, p[|p| - (pos.column - 1)..])
  {
    var p := working[..Min(offset, |working|)];
    SplitCount(p);
    SplitLast(p);
    SplitCount(working);
    CountPrefix(working, Min(offset, |working|));
  }

  /** The problem line: `lines[line - 1] ?? ""`. */
  function ProblemLine(working: string, line: nat): string {
    var lines := SplitOn(working, "\n");
    if 1 <= line <= |lines| then lines[line - 1] else ""
  }

  /** One line of the report: `<code> at line L, column C` and the offending line. */
  function IssueReport(working: string, issue: ParseIssue): string {
    var pos := ErrorPosition(working, issue.offset);
    issue.code + " at line " + NatToString(pos.line) + ", column " + NatToString(pos.column)
    + "\n   Line " + NatToString(pos.line) + ": " + ProblemLine(working, pos.line)
  }

  function IssuesReport(working: string, issues: seq<ParseIssue>): string {
    Join(seq(|issues|, i requires 0 <= i < |issues| => IssueReport(working, issues[i])), "\n")
  }

  // ---------------------------------------------------------------------------
  // loadConfigText

  /** The errors `loadConfigText`, `loadConfigD` and the file reads throw. */
  datatype ConfigError =
    | ReadError(path: string)
    | MissingFileRef(ref: string, resolved: string, file: string)
    | UnreadableFileRef(ref: string, file: string)
    | ParseFailed(file: string, report: string)
    | DirUnreadable(dir: string)

  /** The messages of the errors the plugin formats itself; a rethrown read error keeps its own message. */
  function Message(e: ConfigError): string {
    match e
    case ReadError(path) => path
    case MissingFileRef(ref, resolved, file) =>
      "config-d: bad file reference \"" + ref + "\" (" + resolved + " does not exist) in " + file
    case UnreadableFileRef(ref, file) => "config-d: bad file reference \"" + ref + "\" in " + file
    case ParseFailed(file, report) => "config-d: failed to parse " + file + "\n" + report
    case DirUnreadable(dir) => "config-d: failed to read " + dir
  }

  /** The environment, home directory, file system and JSONC parser the plugin runs against. */
  datatype Host = Host(env: map<string, string>, home: string, fs: Fs, parse: string -> Parsed)

  /** One iteration over `fileMatches`: skip, fail, or replace the first occurrence with the escaped contents. */
  function FileStep(working: string, lines: seq<string>, m: string, file: string, host: Host): Result<string, ConfigError> {
    if SkipRef(lines, m) then Success(working)
    else
      var resolved := ResolveRef(m, host.home, file);
      match ReadFile(host.fs, resolved)
      case NotFound => Failure(MissingFileRef(m, resolved, file))
      case ReadFailed => Failure(UnreadableFileRef(m, file))
      case Contents(text) => Success(ReplaceFirstAsWritten(working, m, Escape(Trim(text))))
  }

  /** The loop over `fileMatches` from `working`, stopping at the first error. */
  function FileSteps(working: string, lines: seq<string>, ms: seq<string>, file: string, host: Host): Result<string, ConfigError>
    decreases |ms|
  {
    if |ms| == 0 then Success(working)
    else match FileStep(working, lines, ms[0], file, host)
      case Failure(e) => Failure(e)
      case Success(next) => FileSteps(next, lines, ms[1..], file, host)
  }

  /** The text handed to the parser: env substitution, then the file references against the lines of that text. */
  function Substituted(text: string, file: string, host: Host): Result<string, ConfigError> {
    var working := SubstEnv(text, host.env);
    FileSteps(working, SplitOn(working, "\n"), FileMatches(working), file, host)
  }

  /** `loadConfigText`: the substituted text parsed; any issue fails with the report; a non-object gives `{}`. */
  function ConfigFromText(text: string, file: string, host: Host): (r: Result<Json, ConfigError>)
    ensures r.Success? ==> r.value.JObj?
    ensures Substituted(text, file, host).Failure? ==> r == Failure(Substituted(text, file, host).error)
    ensures Substituted(text, file, host).Success? ==>
      var working := Substituted(text, file, host).value;
      var parsed := host.parse(working);
      && (|parsed.issues| > 0 ==> r == Failure(ParseFailed(file, IssuesReport(working, parsed.issues))))
      && (|parsed.issues| == 0 && IsPlainObject(parsed.value) ==> r == Success(parsed.value))
      && (|parsed.issues| == 0 && !IsPlainObject(parsed.value) ==> r == Success(JObj(map[])))
  {
    match Substituted(text, file, host)
    case Failure(e) => Failure(e)
    case Success(working) =>
      var parsed := host.parse(working);
      if |parsed.issues| > 0 then Failure(ParseFailed(file, IssuesReport(working, parsed.issues)))
      else if IsPlainObject(parsed.value) then Success(parsed.value)
      else Success(JObj(map[]))
  }

  /** A skipped reference leaves the text alone. */
  lemma FileStepSkips(working: string, lines: seq<string>, m: string, file: string, host: Host)
    requires SkipRef(lines, m)
    ensures FileStep(working, lines, m, file, host) == Success(working)
  {
  }

  /**
   * A reference whose first line is not a comment and whose file can be read
   * is replaced at its first occurrence only, the text around it kept; what
   * goes in its place is the escaped trimmed contents read as a replacement
   * pattern.
   */
  lemma FileStepReplaces(working: string, lines: seq<string>, m: string, file: string, host: Host, t: string)
    requires !SkipRef(lines, m) && ReadFile(host.fs, ResolveRef(m, host.home, file)) == Contents(t)
    requires Contains(working, m)
    ensures var i := IndexOf(working, m).value;
      var before, after := working[..i], working[i + |m|..];
      var step := FileStep(working, lines, m, file, host);
      && step.Success? && OccursAt(working, m, i)
      && (forall k :: 0 <= k < i ==> !OccursAt(working, m, k))
      && step.value == before + ExpandReplacement(Escape(Trim(t)), m, before, after) + after
  {
  }

  /**
   * When the trimmed contents hold no `$`, the reference is replaced by the
   * escaped contents literally, and the inserted text decodes back to them.
   */
  lemma FileStepInlines(working: string, lines: seq<string>, m: string, file: string, host: Host, t: string)
    requires !SkipRef(lines, m) && ReadFile(host.fs, ResolveRef(m, host.home, file)) == Contents(t)
    requires Contains(working, m) && NoChar(Trim(t), '$')
    ensures var i := IndexOf(working, m).value;
      var e := Escape(Trim(t));
      var step := FileStep(working, lines, m, file, host);
      && step.Success?
      && (forall k :: 0 <= k < i ==> !OccursAt(working, m, k))
      && |step.value| == |working| - |m| + |e|
      && step.value[..i] == working[..i] && step.value[i + |e|..] == working[i + |m|..]
      && Unescape(step.value[i..i + |e|]) == Some(Trim(t))
  {
    EscapeNoDollar(Trim(t));
    ReplaceFirstAgrees(working, m, Escape(Trim(t)));
    ReplaceFirstSpec(working, m, Trim(t));
  }

  /** A missing or unreadable file fails with the reference and the config file in the error. */
  lemma FileStepFails(working: string, lines: seq<string>, m: string, file: string, host: Host)
    requires !SkipRef(lines, m) && !ReadFile(host.fs, ResolveRef(m, host.home, file)).Contents?
    ensures var step := FileStep(working, lines, m, file, host);
      && step.Failure? && step.error.ref == m && step.error.file == file
      && (step.error.MissingFileRef? <==> ReadFile(host.fs, ResolveRef(m, host.home, file)).NotFound?)
  {
  }

  /** `loadConfigText`, reassigning `working` in the loop over the file references. */
  method LoadConfigText(text: string, file: string, host: Host) returns (r: Result<Json, ConfigError>)
    ensures r == ConfigFromText(text, file, host)
  {
    var working := SubstEnv(text, host.env);
    var fileMatches := FileMatches(working);
    if |fileMatches| > 0 {
      var lines := SplitOn(working, "\n");
      var i := 0;
      while i < |fileMatches|
        invariant 0 <= i <= |fileMatches|
        invariant FileSteps(working, lines, fileMatches[i..], file, host) == Substituted(text, file, host)
        decreases |fileMatches| - i
      {
        var m := fileMatches[i];
        assert fileMatches[i..][1..] == fileMatches[i + 1..];
        if !SkipRef(lines, m) {
          var resolved := ResolveRef(m, host.home, file);
          var read := ReadFile(host.fs, resolved);
          if read.NotFound? {
            return Failure(MissingFileRef(m, resolved, file));
          } else if read.ReadFailed? {
            return Failure(UnreadableFileRef(m, file));
          }
          working := ReplaceFirstAsWritten(working, m, Escape(Trim(read.text)));
        }
        i := i + 1;
      }
    }
    var parsed := host.parse(working);
    if |parsed.issues| > 0 {
      return Failure(ParseFailed(file, IssuesReport(working, parsed.issues)));
    }
    if !IsPlainObject(parsed.value) {
      return Success(JObj(map[]));
    }
    return Success(parsed.value);
  }
}
