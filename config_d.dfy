/**
 * The file level of config-d.ts: reading one config file, the base config
 * (`loadGlobalConfig`), the `config.d` overlay fold (`loadConfigD`) and the
 * `config` hook that deep-merges the overlay into the host's config object.
 */
module ConfigD {
  import opened Wrappers
  import opened Text
  import opened Sorting
  import opened FileSystem
  import opened JsonMerge
  import opened ConfigText

  // ---------------------------------------------------------------------------
  // One file

  /** `loadConfigFile`: a missing file is None, another read error is thrown, else the text is loaded. */
  function ConfigFile(path: string, host: Host): (r: Result<Option<Json>, ConfigError>)
    ensures r.Success? && r.value.Some? ==> r.value.value.JObj?
    ensures ReadFile(host.fs, path).NotFound? <==> r == Success(None)
  {
    match ReadFile(host.fs, path)
    case NotFound => Success(None)
    case ReadFailed => Failure(ReadError(path))
    case Contents(text) =>
      match ConfigFromText(text, path, host)
      case Failure(e) => Failure(e)
      case Success(v) => Success(Some(v))
  }

  method LoadConfigFile(path: string, host: Host) returns (r: Result<Option<Json>, ConfigError>)
    ensures r == ConfigFile(path, host)
  {
    var read := ReadFile(host.fs, path);
    if read.NotFound? {
      return Success(None);
    } else if read.ReadFailed? {
      return Failure(ReadError(path));
    }
    var loaded := LoadConfigText(read.text, path, host);
    if loaded.Failure? {
      return Failure(loaded.error);
    }
    return Success(Some(loaded.value));
  }

  /** `loadGlobalConfig`: `opencode.json` when it exists, else `opencode.jsonc`. */
  function GlobalConfig(dir: string, host: Host): Result<Option<Json>, ConfigError> {
    match ConfigFile(PathJoin(dir, "opencode.json"), host)
    case Failure(e) => Failure(e)
    case Success(Some(v)) => Success(Some(v))
    case Success(None) => ConfigFile(PathJoin(dir, "opencode.jsonc"), host)
  }

  /**
   * The base config is `opencode.json` whenever that file exists (even when
   * it fails to load); `opencode.jsonc` is read only when it does not.
   */
  lemma GlobalConfigPrefersJson(dir: string, host: Host)
    ensures var json := PathJoin(dir, "opencode.json");
      var jsonc := PathJoin(dir, "opencode.jsonc");
      && (!ReadFile(host.fs, json).NotFound? ==> GlobalConfig(dir, host) == ConfigFile(json, host))
      && (ReadFile(host.fs, json).NotFound? ==> GlobalConfig(dir, host) == ConfigFile(jsonc, host))
      && (GlobalConfig(dir, host) == Success(None) <==>
            ReadFile(host.fs, json).NotFound? && ReadFile(host.fs, jsonc).NotFound?)
  {
  }

  method LoadGlobalConfig(dir: string, host: Host) returns (r: Result<Option<Json>, ConfigError>)
    ensures r == GlobalConfig(dir, host)
  {
    var json := LoadConfigFile(PathJoin(dir, "opencode.json"), host);
    if json.Failure? || json.value.Some? {
      return json;
    }
    r := LoadConfigFile(PathJoin(dir, "opencode.jsonc"), host);
  }

  // ---------------------------------------------------------------------------
  // The config.d directory

  /**
   * `path.extname` of a file name: from the last `.` to the end, except that
   * a name whose only leading part is dots before it (`.json`, `..`) has none.
   */
  function ExtName(name: string): string {
    match LastIndexOf(name, '.')
    case None => ""
    case Some(i) => if i == 0 || name == ".." then "" else name[i..]
  }

  /** `a.b.JSON` has extension `.JSON`; a dot file such as `.json` has none. */
  lemma ExtNameSpec(stem: string, ext: string)
    requires NoChar(ext, '.')
    ensures |stem| > 0 && stem != "." ==> ExtName(stem + "." + ext) == "." + ext
    ensures ExtName("." + ext) == ""
  {
    var name := stem + "." + ext;
    var i := |stem|;
    assert name[i] == '.' && name[i + 1..] == ext;
    forall j | i < j < |name| ensures name[j] != '.' {
      assert name[j] == ext[j - i - 1];
    }
    LastIndexAt(name, '.', i);
    if |stem| > 0 && stem != "." {
      assert name != ".." by {
        if |name| == 2 {
          assert stem == name[..1];
        }
      }
    }
    assert name[i..] == "." + ext;
    var hidden := "." + ext;
    assert hidden[1..] == ext;
    forall j | 0 < j < |hidden| ensures hidden[j] != '.' {
      assert hidden[j] == ext[j - 1];
    }
    LastIndexAt(hidden, '.', 0);
  }

  const ConfigExtensions: set<string> := {".json", ".jsonc"}

  /** A regular file whose lower-cased extension is `.json` or `.jsonc`. */
  predicate IsConfigFile(e: Entry) {
    e.isFile && ToLowerString(ExtName(e.name)) in ConfigExtensions
  }

  function ConfigNames(entries: seq<Entry>): seq<string> {
    if |entries| == 0 then []
    else (if IsConfigFile(entries[0]) then [entries[0].name] else []) + ConfigNames(entries[1..])
  }

  function JoinAll(dir: string, names: seq<string>): (r: seq<string>)
    ensures |r| == |names| && forall i :: 0 <= i < |names| ==> r[i] == PathJoin(dir, names[i])
  {
    if |names| == 0 then [] else [PathJoin(dir, names[0])] + JoinAll(dir, names[1..])
  }

  /** The files `loadConfigD` folds, in order: the config files of the listing, sorted by name, under the directory. */
  function ConfigFiles(configDir: string, entries: seq<Entry>): seq<string> {
    JoinAll(configDir, Sort(ConfigNames(entries)))
  }

  lemma {:induction false} ConfigNamesMembers(entries: seq<Entry>)
    ensures forall n :: n in ConfigNames(entries) <==> exists e :: e in entries && IsConfigFile(e) && e.name == n
    decreases |entries|
  {
    if |entries| > 0 {
      ConfigNamesMembers(entries[1..]);
      forall n ensures n in ConfigNames(entries) <==> exists e :: e in entries && IsConfigFile(e) && e.name == n {
        if n in ConfigNames(entries[1..]) {
          var e :| e in entries[1..] && IsConfigFile(e) && e.name == n;
          assert e in entries;
        }
        if exists e :: e in entries && IsConfigFile(e) && e.name == n {
          var e :| e in entries && IsConfigFile(e) && e.name == n;
          if e != entries[0] {
            assert e in entries[1..];
          }
        }
      }
    }
  }

  /**
   * The folded files are the regular `.json`/`.jsonc` files (in any letter
   * case) of the listing, each as often as listed, in ascending name order.
   */
  lemma ConfigFilesSpec(configDir: string, entries: seq<Entry>)
    ensures var names := Sort(ConfigNames(entries));
      && Sorted(names)
      && ConfigFiles(configDir, entries) == JoinAll(configDir, names)
      && forall n :: n in names <==> exists e :: e in entries && IsConfigFile(e) && e.name == n
  {
    var names := Sort(ConfigNames(entries));
    ConfigNamesMembers(entries);
    forall n ensures n in names <==> n in ConfigNames(entries) {
      assert n in names <==> n in multiset(names);
      assert n in ConfigNames(entries) <==> n in multiset(ConfigNames(entries));
    }
  }

  /** The fold of `loadConfigD` over its files: missing files are skipped, the first error is thrown. */
  function FoldFiles(files: seq<string>, host: Host): (r: Result<Json, ConfigError>)
    ensures r.Success? ==> r.value.JObj?
    decreases |files|
  {
    if |files| == 0 then Success(JObj(map[]))
    else
      match FoldFiles(files[..|files| - 1], host)
      case Failure(e) => Failure(e)
      case Success(acc) => FoldStep(acc, files[|files| - 1], host)
  }

  /** One iteration of the fold: `result = mergeDeep(result, parsed)` when the file was there. */
  function FoldStep(acc: Json, file: string, host: Host): (r: Result<Json, ConfigError>)
    ensures acc.JObj? && r.Success? ==> r.value.JObj?
  {
    match ConfigFile(file, host)
    case Failure(e) => Failure(e)
    case Success(None) => Success(acc)
    case Success(Some(v)) => Success(Merged(acc, v))
  }

  /** The first error ends the fold: the later files are never read. */
  lemma {:induction false} FoldFailureSticks(files: seq<string>, k: nat, host: Host)
    requires k <= |files| && FoldFiles(files[..k], host).Failure?
    ensures FoldFiles(files, host) == FoldFiles(files[..k], host)
    decreases |files|
  {
    if k < |files| {
      var init := files[..|files| - 1];
      assert init[..k] == files[..k];
      FoldFailureSticks(init, k, host);
    } else {
      assert files[..k] == files;
    }
  }

  /** The fold over one more file is one more step on the fold so far. */
  lemma FoldFilesSnoc(files: seq<string>, i: nat, host: Host)
    requires i < |files|
    ensures var sofar := FoldFiles(files[..i], host);
      FoldFiles(files[..i + 1], host) == if sofar.Failure? then Failure(sofar.error) else FoldStep(sofar.value, files[i], host)
  {
    assert files[..i + 1][..i] == files[..i];
  }

  /** `loadConfigD`: a missing directory gives `{}`, an unreadable one is an error, else the fold. */
  function ConfigDOverlay(dir: string, host: Host): Result<Json, ConfigError> {
    var configDir := PathJoin(dir, "config.d");
    match ReadDir(host.fs, configDir)
    case NoDir => Success(JObj(map[]))
    case ListFailed => Failure(DirUnreadable(configDir))
    case Entries(entries) => FoldFiles(ConfigFiles(configDir, entries), host)
  }

  /** When every file loads, the fold is `MergeAll` of the parsed objects in file order. */
  lemma {:induction false} FoldAllLoaded(files: seq<string>, host: Host, objs: seq<Json>)
    requires |objs| == |files| && forall i :: 0 <= i < |files| ==> ConfigFile(files[i], host) == Success(Some(objs[i]))
    ensures FoldFiles(files, host) == Success(MergeAll(objs))
    decreases |files|
  {
    if |files| > 0 {
      var n := |files|;
      FoldAllLoaded(files[..n - 1], host, objs[..n - 1]);
    }
  }

  /**
   * Later files win: when every file of `config.d` loads, a leaf of file i
   * is in the overlay unless a later file says something about its path.
   */
  lemma ConfigDLaterWins(dir: string, host: Host, objs: seq<Json>, i: nat, path: seq<string>, v: Json)
    requires var configDir := PathJoin(dir, "config.d");
      && ReadDir(host.fs, configDir).Entries?
      && var files := ConfigFiles(configDir, ReadDir(host.fs, configDir).entries);
      && |objs| == |files|
      && forall k :: 0 <= k < |files| ==> ConfigFile(files[k], host) == Success(Some(objs[k]))
    requires i < |objs| && At(objs[i], path) == Some(v) && !v.JObj?
    requires forall j :: i < j < |objs| ==> SilentOn(objs[j], path)
    ensures ConfigDOverlay(dir, host).Success? && At(ConfigDOverlay(dir, host).value, path) == Some(v)
  {
    var configDir := PathJoin(dir, "config.d");
    FoldAllLoaded(ConfigFiles(configDir, ReadDir(host.fs, configDir).entries), host, objs);
    LaterFileWins(objs, i, path, v);
  }

  /** A missing `config.d` gives the empty overlay. */
  lemma ConfigDMissing(dir: string, host: Host)
    requires ReadDir(host.fs, PathJoin(dir, "config.d")).NoDir?
    ensures ConfigDOverlay(dir, host) == Success(JObj(map[]))
  {
  }

  /** `loadConfigD`, reassigning `result` in the loop over the files. */
  method LoadConfigD(dir: string, host: Host) returns (r: Result<Json, ConfigError>)
    ensures r == ConfigDOverlay(dir, host)
  {
    var configDir := PathJoin(dir, "config.d");
    var listing := ReadDir(host.fs, configDir);
    if listing.NoDir? {
      return Success(JObj(map[]));
    } else if listing.ListFailed? {
      return Failure(DirUnreadable(configDir));
    }
    var files := ConfigFiles(configDir, listing.entries);
    var result := JObj(map[]);
    var i := 0;
    while i < |files|
      invariant 0 <= i <= |files|
      invariant FoldFiles(files[..i], host) == Success(result)
      decreases |files| - i
    {
      FoldFilesSnoc(files, i, host);
      var next := MergeFile(result, files[i], host);
      if next.Failure? {
        FoldFailureSticks(files, i + 1, host);
        return Failure(next.error);
      }
      result := next.value;
      i := i + 1;
    }
    assert files[..i] == files;
    return Success(result);
  }

  /** The body of `loadConfigD`'s loop for one file. */
  method MergeFile(result: Json, file: string, host: Host) returns (r: Result<Json, ConfigError>)
    ensures r == FoldStep(result, file, host)
  {
    var parsed := LoadConfigFile(file, host);
    if parsed.Failure? {
      return Failure(parsed.error);
    }
    if parsed.value.Some? && IsPlainObject(parsed.value.value) {
      var merged := MergeDeep(result, parsed.value.value);
      return Success(merged);
    }
    return Success(result);
  }

  // ---------------------------------------------------------------------------
  // The config hook

  /** `$XDG_CONFIG_HOME/opencode` when that variable is set to non-blank text, else `~/.config/opencode`. */
  function GlobalDir(host: Host): string {
    var xdg := if "XDG_CONFIG_HOME" in host.env then Trim(host.env["XDG_CONFIG_HOME"]) else "";
    if |xdg| > 0 then PathJoin(xdg, "opencode") else PathJoin(PathJoin(host.home, ".config"), "opencode")
  }

  /**
   * What the hook does to the host's config fields: nothing without a base
   * config or with an empty overlay, else the overlay is deep-merged in;
   * errors are thrown before anything is written.
   */
  function HookOutcome(config: map<string, Json>, host: Host): Result<map<string, Json>, ConfigError> {
    var dir := GlobalDir(host);
    match GlobalConfig(dir, host)
    case Failure(e) => Failure(e)
    case Success(None) => Success(config)
    case Success(Some(_)) =>
      match ConfigDOverlay(dir, host)
      case Failure(e) => Failure(e)
      case Success(overlay) =>
        if !IsPlainObject(overlay) || |overlay.fields| == 0 then Success(config)
        else Success(Merged(JObj(config), overlay).fields)
  }

  /**
   * The hook keeps every key of the config, adds the overlay's, and its
   * leaves win; without a base config, or with no overlay keys, nothing
   * changes.
   */
  lemma HookOutcomeSpec(config: map<string, Json>, host: Host)
    ensures var dir := GlobalDir(host);
      && (GlobalConfig(dir, host) == Success(None) ==> HookOutcome(config, host) == Success(config))
      && ((GlobalConfig(dir, host).Success? && GlobalConfig(dir, host).value.Some?
           && ConfigDOverlay(dir, host) == Success(JObj(map[]))) ==> HookOutcome(config, host) == Success(config))
      && (HookOutcome(config, host).Success? ==> config.Keys <= HookOutcome(config, host).value.Keys)
      && (HookOutcome(config, host).Success? && HookOutcome(config, host).value != config ==>
            var overlay := ConfigDOverlay(dir, host).value;
            && HookOutcome(config, host).value.Keys == config.Keys + overlay.fields.Keys
            && forall path, v :: At(overlay, path) == Some(v) && !v.JObj? ==>
                 At(JObj(HookOutcome(config, host).value), path) == Some(v))
  {
    var dir := GlobalDir(host);
    var outcome := HookOutcome(config, host);
    if outcome.Success? && outcome.value != config {
      var overlay := ConfigDOverlay(dir, host).value;
      MergedSpec(JObj(config), overlay);
      forall path, v | At(overlay, path) == Some(v) && !v.JObj?
        ensures At(JObj(outcome.value), path) == Some(v)
      {
        LeafWins(JObj(config), overlay, path, v);
      }
    } else if outcome.Success? {
      if GlobalConfig(dir, host).Success? && GlobalConfig(dir, host).value.Some? && ConfigDOverlay(dir, host).Success? {
        MergedSpec(JObj(config), ConfigDOverlay(dir, host).value);
      }
    }
  }

  /** The host's config object, which the hook merges into in place. */
  class Config {
    var fields: map<string, Json>

    constructor(fields: map<string, Json>)
      ensures this.fields == fields
    {
      this.fields := fields;
    }
  }

  /** The `config` hook. */
  method ConfigHook(config: Config, host: Host) returns (r: Result<(), ConfigError>)
    modifies config
    ensures match HookOutcome(old(config.fields), host)
      case Failure(e) => r == Failure(e) && config.fields == old(config.fields)
      case Success(c) => r == Success(()) && config.fields == c
  {
    var globalDir := GlobalDir(host);
    var base := LoadGlobalConfig(globalDir, host);
    if base.Failure? {
      return Failure(base.error);
    }
    if base.value.None? {
      return Success(());
    }
    var overlay := LoadConfigD(globalDir, host);
    if overlay.Failure? {
      return Failure(overlay.error);
    }
    if !IsPlainObject(overlay.value) || |overlay.value.fields| == 0 {
      return Success(());
    }
    var merged := MergeDeep(JObj(config.fields), overlay.value);
    config.fields := merged.fields;
    return Success(());
  }
}
