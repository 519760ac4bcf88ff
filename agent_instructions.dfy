/**
 * agent-instructions.ts: a per-agent cache of instruction files looked up
 * first in the project and then in the global configuration directory, and
 * the system-transform hook that appends the instructions of the agent of
 * the latest user message to `output.system`.
 */
module AgentInstructions {
  import opened Wrappers
  import opened FileSystem
  import PromptEngine

  /** `file.text()` rejected for a file that `file.exists()` reported. */
  datatype LoadError = Unreadable(path: string)

  function InstructionsFile(agent: string): string {
    agent + ".instructions.md"
  }

  /** `<directory>/.opencode/agent-instructions/<agent>.instructions.md`. */
  function ProjectPath(directory: string, agent: string): string {
    PathJoin(PathJoin(PathJoin(directory, ".opencode"), "agent-instructions"), InstructionsFile(agent))
  }

  /** `<home>/.config/opencode/agent-instructions/<agent>.instructions.md`. */
  function GlobalPath(home: string, agent: string): string {
    PathJoin(PathJoin(PathJoin(PathJoin(home, ".config"), "opencode"), "agent-instructions"), InstructionsFile(agent))
  }

  /** The candidate paths, the project-level one first. */
  function CandidatePaths(directory: string, home: string, agent: string): seq<string> {
    [ProjectPath(directory, agent), GlobalPath(home, agent)]
  }

  /** The first of `paths` that exists supplies its text; none existing gives `None`. */
  function FirstExisting(fs: Fs, paths: seq<string>): Result<Option<string>, LoadError>
    decreases |paths|
  {
    if |paths| == 0 then Success(None)
    else match ReadFile(fs, paths[0])
      case NotFound => FirstExisting(fs, paths[1..])
      case ReadFailed => Failure(Unreadable(paths[0]))
      case Contents(t) => Success(Some(t))
  }

  /** The paths whose existence is asked about before the search stops. */
  function Probed(fs: Fs, paths: seq<string>): seq<string>
    decreases |paths|
  {
    if |paths| == 0 then []
    else if ReadFile(fs, paths[0]).NotFound? then [paths[0]] + Probed(fs, paths[1..])
    else [paths[0]]
  }

  /** What a lookup on the file system finds for `agent`. */
  function Lookup(fs: Fs, directory: string, home: string, agent: string): Result<Option<string>, LoadError> {
    FirstExisting(fs, CandidatePaths(directory, home, agent))
  }

  /**
   * The search finds text `t` exactly when some path holds `t` and every
   * earlier path is missing, and finds nothing exactly when every path is
   * missing.
   */
  lemma {:induction false} FirstExistingSpec(fs: Fs, paths: seq<string>, t: string)
    ensures FirstExisting(fs, paths) == Success(Some(t)) <==>
      exists i :: 0 <= i < |paths| && ReadFile(fs, paths[i]) == Contents(t) &&
        forall j :: 0 <= j < i ==> ReadFile(fs, paths[j]).NotFound?
    ensures FirstExisting(fs, paths) == Success(None) <==>
      forall i :: 0 <= i < |paths| ==> ReadFile(fs, paths[i]).NotFound?
    decreases |paths|
  {
    if |paths| > 0 {
      var tail := paths[1..];
      FirstExistingSpec(fs, tail, t);
      if ReadFile(fs, paths[0]).NotFound? {
        if FirstExisting(fs, paths) == Success(Some(t)) {
          var i :| 0 <= i < |tail| && ReadFile(fs, tail[i]) == Contents(t) &&
            forall j :: 0 <= j < i ==> ReadFile(fs, tail[j]).NotFound?;
          assert forall j :: 0 <= j < i + 1 ==> ReadFile(fs, paths[j]).NotFound? by {
            forall j | 0 <= j < i + 1 ensures ReadFile(fs, paths[j]).NotFound? {
              if j > 0 {
                assert paths[j] == tail[j - 1];
              }
            }
          }
          assert paths[i + 1] == tail[i];
        }
        if exists i :: 0 <= i < |paths| && ReadFile(fs, paths[i]) == Contents(t) &&
            forall j :: 0 <= j < i ==> ReadFile(fs, paths[j]).NotFound? {
          var i :| 0 <= i < |paths| && ReadFile(fs, paths[i]) == Contents(t) &&
            forall j :: 0 <= j < i ==> ReadFile(fs, paths[j]).NotFound?;
          assert i > 0;
          assert tail[i - 1] == paths[i];
          assert forall j :: 0 <= j < i - 1 ==> tail[j] == paths[j + 1];
        }
        if forall i :: 0 <= i < |tail| ==> ReadFile(fs, tail[i]).NotFound? {
          forall i | 0 <= i < |paths| ensures ReadFile(fs, paths[i]).NotFound? {
            if i > 0 {
              assert paths[i] == tail[i - 1];
            }
          }
        }
        if forall i :: 0 <= i < |paths| ==> ReadFile(fs, paths[i]).NotFound? {
          assert forall i :: 0 <= i < |tail| ==> tail[i] == paths[i + 1];
        }
      }
    }
  }

  /**
   * Path priority: the project file wins when it exists, the global file is
   * used only when the project file is missing, and two missing files give
   * `None`; a file that exists but cannot be read stops the search.
   */
  lemma LookupPriority(fs: Fs, directory: string, home: string, agent: string)
    ensures var p, g := ReadFile(fs, ProjectPath(directory, agent)), ReadFile(fs, GlobalPath(home, agent));
      var r := Lookup(fs, directory, home, agent);
      && (p.Contents? ==> r == Success(Some(p.text)))
      && (p.ReadFailed? ==> r == Failure(Unreadable(ProjectPath(directory, agent))))
      && (p.NotFound? && g.Contents? ==> r == Success(Some(g.text)))
      && (p.NotFound? && g.ReadFailed? ==> r == Failure(Unreadable(GlobalPath(home, agent))))
      && (p.NotFound? && g.NotFound? ==> r == Success(None))
  {
    var paths := CandidatePaths(directory, home, agent);
    if ReadFile(fs, paths[0]).NotFound? {
      var rest := paths[1..];
      assert rest == [GlobalPath(home, agent)] && rest[1..] == [];
      assert FirstExisting(fs, paths) == FirstExisting(fs, rest);
      if ReadFile(fs, rest[0]).NotFound? {
        assert FirstExisting(fs, rest) == FirstExisting(fs, []);
      }
    }
  }

  /** What `loadInstructions` reports: the cached entry when there is one, else the lookup. */
  function Instructions(cache: map<string, Option<string>>, fs: Fs, directory: string, home: string, agent: string)
    : Result<Option<string>, LoadError>
  {
    if agent in cache then Success(cache[agent]) else Lookup(fs, directory, home, agent)
  }

  /** The cache after `loadInstructions`: a fresh result, found or not, is stored; a failure stores nothing. */
  function CachedAfter(cache: map<string, Option<string>>, agent: string, found: Result<Option<string>, LoadError>)
    : map<string, Option<string>>
  {
    if agent in cache || found.Failure? then cache else cache[agent := found.value]
  }

  /**
   * A second load of the same agent answers from the cache with what the
   * first one reported, whatever the file system then holds; in particular
   * a miss stays a miss.
   */
  lemma SecondLoadHits(cache: map<string, Option<string>>, fs: Fs, later: Fs, directory: string, home: string,
                       agent: string)
    requires Instructions(cache, fs, directory, home, agent).Success?
    ensures var first := Instructions(cache, fs, directory, home, agent);
      var cache' := CachedAfter(cache, agent, first);
      && agent in cache'
      && Instructions(cache', later, directory, home, agent) == first
      && CachedAfter(cache', agent, Instructions(cache', later, directory, home, agent)) == cache'
  {
  }

  /** `output.system` after the hook: non-empty instructions become one new last element. */
  function Appended(system: seq<string>, instructions: Option<string>): seq<string> {
    if instructions.Some? && instructions.value != "" then system + [instructions.value] else system
  }

  /** Append only: the old elements are kept and at most one is added, exactly for non-empty instructions. */
  lemma AppendOnly(system: seq<string>, instructions: Option<string>)
    ensures var r := Appended(system, instructions);
      && r[..|system|] == system
      && (|r| == |system| + 1 <==> instructions.Some? && instructions.value != "")
      && (|r| == |system| + 1 ==> r[|system|] == instructions.value)
      && (|r| != |system| + 1 ==> r == system)
  {
  }

  /** One entry of `client.session.messages`: its `info`, when present, has a role and an agent. */
  datatype MessageInfo = MessageInfo(role: string, agent: Option<string>)
  datatype SessionMessage = SessionMessage(info: Option<MessageInfo>)

  /** `m.info?.role === "user"`. */
  predicate IsUser(m: SessionMessage) {
    m.info.Some? && m.info.value.role == "user"
  }

  function Reversed(s: seq<SessionMessage>): (r: seq<SessionMessage>)
    ensures |r| == |s| && forall i :: 0 <= i < |s| ==> r[i] == s[|s| - 1 - i]
  {
    seq(|s|, i requires 0 <= i < |s| => s[|s| - 1 - i])
  }

  /** `find` with the user-role test: the first user message. */
  function FindUser(s: seq<SessionMessage>): Option<SessionMessage>
    decreases |s|
  {
    if |s| == 0 then None else if IsUser(s[0]) then Some(s[0]) else FindUser(s[1..])
  }

  lemma {:induction false} FindUserSpec(s: seq<SessionMessage>)
    ensures FindUser(s).None? <==> forall i :: 0 <= i < |s| ==> !IsUser(s[i])
    ensures FindUser(s).Some? ==>
      exists i :: 0 <= i < |s| && s[i] == FindUser(s).value && IsUser(s[i]) &&
        forall j :: 0 <= j < i ==> !IsUser(s[j])
    decreases |s|
  {
    if |s| > 0 && !IsUser(s[0]) {
      var tail := s[1..];
      FindUserSpec(tail);
      assert forall i :: 0 <= i < |tail| ==> tail[i] == s[i + 1];
      if FindUser(tail).Some? {
        var i :| 0 <= i < |tail| && tail[i] == FindUser(tail).value && IsUser(tail[i]) &&
          forall j :: 0 <= j < i ==> !IsUser(tail[j]);
        assert s[i + 1] == tail[i];
        assert forall j :: 0 <= j < i + 1 ==> !IsUser(s[j]) by {
          forall j | 0 <= j < i + 1 ensures !IsUser(s[j]) {
            if j > 0 {
              assert s[j] == tail[j - 1];
            }
          }
        }
      }
    }
  }

  /** `[...result.data].reverse().find(...)`: the last user message in list order. */
  function LastUserMessage(msgs: seq<SessionMessage>): Option<SessionMessage> {
    FindUser(Reversed(msgs))
  }

  /** There is a result exactly when some message is a user message, and it is the latest of them. */
  lemma LastUserMessageSpec(msgs: seq<SessionMessage>)
    ensures LastUserMessage(msgs).None? <==> forall i :: 0 <= i < |msgs| ==> !IsUser(msgs[i])
    ensures LastUserMessage(msgs).Some? ==>
      exists i :: 0 <= i < |msgs| && msgs[i] == LastUserMessage(msgs).value && IsUser(msgs[i]) &&
        forall j :: i < j < |msgs| ==> !IsUser(msgs[j])
  {
    var rev := Reversed(msgs);
    var n := |msgs|;
    FindUserSpec(rev);
    if FindUser(rev).None? {
      forall i | 0 <= i < n ensures !IsUser(msgs[i]) {
        assert rev[n - 1 - i] == msgs[i];
      }
    } else {
      var k :| 0 <= k < n && rev[k] == FindUser(rev).value && IsUser(rev[k]) &&
        forall j :: 0 <= j < k ==> !IsUser(rev[j]);
      var i := n - 1 - k;
      assert msgs[i] == rev[k] == LastUserMessage(msgs).value;
      forall j | i < j < n ensures !IsUser(msgs[j]) {
        var m := n - 1 - j;
        assert 0 <= m < k && rev[m] == msgs[n - 1 - m];
      }
      assert 0 <= i < n && IsUser(msgs[i]);
    }
  }

  /** The agent the hook loads instructions for, or `None` when it returns early. */
  function HookAgent(sessionID: Option<string>, messages: string -> Option<seq<SessionMessage>>): Option<string> {
    if sessionID.None? || sessionID.value == "" then None
    else
      var data := messages(sessionID.value);
      if data.None? || |data.value| == 0 then None
      else
        var last := LastUserMessage(data.value);
        if last.None? || !IsUser(last.value) then None
        else
          var agent := last.value.info.value.agent;
          if agent.None? || agent.value == "" then None else agent
  }

  /**
   * Early exits and agent selection: there is an agent exactly when the
   * session id is non-empty and the latest user message of its non-empty
   * message list carries a non-empty agent, which is the one chosen.
   */
  lemma HookAgentSpec(sessionID: Option<string>, messages: string -> Option<seq<SessionMessage>>)
    ensures sessionID.None? || sessionID.value == "" ==> HookAgent(sessionID, messages).None?
    ensures sessionID.Some? && (messages(sessionID.value).None? || messages(sessionID.value) == Some([])) ==>
      HookAgent(sessionID, messages).None?
    ensures sessionID.Some? && messages(sessionID.value).Some? ==>
      var msgs := messages(sessionID.value).value;
      (forall i :: 0 <= i < |msgs| ==> !IsUser(msgs[i])) ==> HookAgent(sessionID, messages).None?
    ensures HookAgent(sessionID, messages).Some? ==>
      var agent := HookAgent(sessionID, messages).value;
      && agent != ""
      && sessionID.Some? && sessionID.value != ""
      && messages(sessionID.value).Some?
      && var msgs := messages(sessionID.value).value;
      exists i :: 0 <= i < |msgs| && IsUser(msgs[i]) && msgs[i].info.value.agent == Some(agent) &&
        forall j :: i < j < |msgs| ==> !IsUser(msgs[j])
  {
    if sessionID.Some? && messages(sessionID.value).Some? {
      LastUserMessageSpec(messages(sessionID.value).value);
    }
  }

  /** The plugin's closure: its instance directory, the home directory and the cache. */
  class InstructionLoader {
    const directory: string
    const home: string
    /** `cache`: a hit is `Some(text)`, a remembered miss `None`. */
    var cache: map<string, Option<string>>
    /** The paths whose existence has been asked about, in order. */
    ghost var probed: seq<string>

    constructor (directory: string, home: string)
      ensures this.directory == directory && this.home == home
      ensures cache == map[] && probed == []
    {
      this.directory := directory;
      this.home := home;
      cache := map[];
      probed := [];
    }

    /**
     * `loadInstructions`: a cached agent is answered without probing any
     * path; otherwise the candidates are probed in order, and the first that
     * exists supplies the text, which is cached, as is a miss.
     */
    method LoadInstructions(agent: string, fs: Fs) returns (r: Result<Option<string>, LoadError>)
      modifies this`cache, this`probed
      ensures r == Instructions(old(cache), fs, directory, home, agent)
      ensures cache == CachedAfter(old(cache), agent, r)
      ensures agent in old(cache) ==> probed == old(probed)
      ensures agent !in old(cache) ==> probed == old(probed) + Probed(fs, CandidatePaths(directory, home, agent))
    {
      if agent in cache {
        return Success(cache[agent]);
      }
      var paths := CandidatePaths(directory, home, agent);
      var i := 0;
      while i < |paths|
        invariant 0 <= i <= |paths|
        invariant cache == old(cache)
        invariant FirstExisting(fs, paths[i..]) == FirstExisting(fs, paths)
        invariant probed + Probed(fs, paths[i..]) == old(probed) + Probed(fs, paths)
      {
        var p := paths[i];
        probed := probed + [p];
        var file := ReadFile(fs, p);
        if !file.NotFound? {
          assert Probed(fs, paths[i..]) == [p];
          if file.ReadFailed? {
            return Failure(Unreadable(p));
          }
          cache := cache[agent := Some(file.text)];
          return Success(Some(file.text));
        }
        assert paths[i..][1..] == paths[i + 1..];
        i := i + 1;
      }
      cache := cache[agent := None];
      r := Success(None);
    }

    /**
     * `experimental.chat.system.transform`: without an agent nothing changes;
     * otherwise the agent's instructions are loaded and, when non-empty,
     * appended to `output.system`. `messages` is what `client.session.messages`
     * answers during this call (`None` when the response has no `data`), so
     * each call sees the session as it is then.
     */
    method SystemTransform(sessionID: Option<string>, messages: string -> Option<seq<SessionMessage>>, fs: Fs,
                           output: PromptEngine.SystemOutput)
      returns (r: Result<(), LoadError>)
      modifies this`cache, this`probed, output
      ensures HookAgent(sessionID, messages).None? ==>
        r.Success? && output.system == old(output.system) && cache == old(cache) && probed == old(probed)
      ensures HookAgent(sessionID, messages).Some? ==>
        var found := Instructions(old(cache), fs, directory, home, HookAgent(sessionID, messages).value);
        && cache == CachedAfter(old(cache), HookAgent(sessionID, messages).value, found)
        && (found.Failure? ==> r == Failure(found.error) && output.system == old(output.system))
        && (found.Success? ==> r.Success? && output.system == Appended(old(output.system), found.value))
    {
      var agent := HookAgent(sessionID, messages);
      if agent.None? {
        return Success(());
      }
      var found := LoadInstructions(agent.value, fs);
      if found.Failure? {
        return Failure(found.error);
      }
      if found.value.Some? && found.value.value != "" {
        output.system := output.system + [found.value.value];
      }
      r := Success(());
    }
  }
}
