/** The controller loop of main.go as a state machine: settings read from
    the environment, the idle start-up instance, and the poll cycle that
    renders the configuration, fingerprints it and reloads HAProxy only
    when the fingerprint moved. The container inventory, the pid file, the
    liveness probe and the MD5 digest are inputs of each step; the file
    write and the process start are emitted as actions. */
module Reconciler {
  import opened Options
  import opened Decimal
  import opened Model
  import opened Extract
  import opened Grouping
  import opened Determinism
  import opened Render
  import opened Supervisor

  const InitialHash := "-1"
  const DefaultCheckTime := 5
  const DefaultPidFile := "/tmp/haproxy.pid"
  const DefaultSockFile := "/tmp/haproxy.sock"

  datatype Settings = Settings(statsPort: int, checkTime: int, pidFile: string, sockFile: string, template: Template)

  /** `readEnvInteger`: an unset (empty) variable reads as -1; a value
      that is not an integer is fatal, which is `None` here. */
  function EnvInteger(value: string): (r: Option<int>)
    ensures value == "" ==> r == Some(-1)
    ensures r.None? <==> value != "" && Atoi(value).None?
    ensures r.Some? && value != "" ==> Atoi(value) == r
  {
    if value == "" then Some(-1) else Atoi(value)
  }

  /** Writing a number into the variable and reading it back gives the number. */
  lemma EnvIntegerRoundTrip(n: int)
    requires MinInt64 <= n <= MaxInt64
    ensures EnvInteger(Itoa(n)) == Some(n)
  {
    AtoiItoa(n);
  }

  /** `readEnvironmentConfiguration` over an environment lookup `env`
      (an unset variable reads as ""). The built-in template is the one
      rendered. */
  function ReadSettings(env: string -> string): (r: Option<Settings>)
    ensures r.None? <==> EnvInteger(env("LB_STATS_PORT")).None? || EnvInteger(env("CHECK_TIME")).None?
    ensures r.Some? ==> Some(r.value.statsPort) == EnvInteger(env("LB_STATS_PORT"))
    ensures r.Some? ==> r.value.checkTime > 0
    ensures r.Some? ==> (r.value.checkTime == DefaultCheckTime || Some(r.value.checkTime) == EnvInteger(env("CHECK_TIME")))
    ensures r.Some? && EnvInteger(env("CHECK_TIME")).value > 0 ==> Some(r.value.checkTime) == EnvInteger(env("CHECK_TIME"))
    ensures r.Some? ==> r.value.pidFile == (if env("HAPROXY_PID_FILE") != "" then env("HAPROXY_PID_FILE") else DefaultPidFile)
    ensures r.Some? ==> r.value.sockFile == (if env("HAPROXY_SOCK_FILE") != "" then env("HAPROXY_SOCK_FILE") else DefaultSockFile)
    ensures r.Some? ==> r.value.template == BuiltIn
  {
    match EnvInteger(env("LB_STATS_PORT"))
    case None => None
    case Some(statsPort) =>
      match EnvInteger(env("CHECK_TIME"))
      case None => None
      case Some(checkTime) =>
        var pidFile := if |env("HAPROXY_PID_FILE")| > 0 then env("HAPROXY_PID_FILE") else DefaultPidFile;
        var sockFile := if |env("HAPROXY_SOCK_FILE")| > 0 then env("HAPROXY_SOCK_FILE") else DefaultSockFile;
        Some(Settings(statsPort, if checkTime <= 0 then DefaultCheckTime else checkTime, pidFile, sockFile, BuiltIn))
  }

  /** Settings read from the environment render with a usable template. */
  lemma ReadSettingsUsable(env: string -> string)
    requires ReadSettings(env).Some?
    ensures Usable(ReadSettings(env).value.template)
  {
    BuiltInUsable();
  }

  /** What the world looks like when a step runs: the container list,
      which certificate paths `os.Stat` does not report as missing, the
      pid file's contents (`None` when it cannot be opened) and which
      pids answer the signal-0 probe. */
  datatype Snapshot = Snapshot(containers: seq<Container>, sslExists: string -> bool,
                               pidFile: Option<string>, alive: int -> bool)

  /** `StartHAProxy` carries the two arguments `startNewHAProxy` hands to
      `os.StartProcess`: the program to run and the argument slice, which
      becomes the new process's whole argv. */
  datatype Action = WriteConfig(path: string, text: string) | StartHAProxy(path: string, argv: seq<string>)

  datatype State = State(lastHash: string)

  /** A step either carries on with a new state and the actions it took,
      or ends the program (a fatal log or an unrecovered panic). */
  datatype Step = Step(state: State, actions: seq<Action>) | Fatal

  const Initial := State(InitialHash)

  /** The text `generateHAProxyConfig` produces for these services. */
  function Config(settings: Settings, services: seq<ServiceConfiguration>): string {
    Render.Render(settings.template, WholeConfiguration(services, settings.statsPort), settings.pidFile, settings.sockFile)
  }

  /** The argument slice `startNewHAProxy` builds for this snapshot. */
  function StartArgs(settings: Settings, snap: Snapshot): seq<string> {
    HAProxyArgs(FindRunningPid(snap.pidFile, snap.alive), settings.sockFile)
  }

  /** `applyConfiguration`: write the file, start a new instance, then
      remember the fingerprint of what was written. */
  function Apply(config: string, binary: string, args: seq<string>, digest: string -> string): (r: Step)
    ensures r.Step? && r.state.lastHash == digest(config)
    ensures |r.actions| == 2 && r.actions[0] == WriteConfig(ConfigPath, config) && r.actions[1] == StartHAProxy(binary, args)
  {
    Step(State(digest(config)), [WriteConfig(ConfigPath, config), StartHAProxy(binary, args)])
  }

  /** `startHAProxyIdleInstance`: with the binary found on the path, the
      configuration without services is applied unconditionally; without
      it the program stops. */
  function Startup(settings: Settings, binary: Option<string>, snap: Snapshot, digest: string -> string): (r: Step)
    ensures r.Fatal? <==> binary.None?
    ensures r.Step? ==> r.state.lastHash == digest(Config(settings, []))
    ensures r.Step? ==> r.actions == [WriteConfig(ConfigPath, Config(settings, [])),
                                      StartHAProxy(binary.value, StartArgs(settings, snap))]
  {
    match binary
    case None => Fatal
    case Some(b) => Apply(Config(settings, []), b, StartArgs(settings, snap), digest)
  }

  /** What one pass of the loop works from once the containers are read:
      the rendered text, or `None` when reading them panicked, and the
      binary and argument slice a reload would start HAProxy with. */
  datatype Pass = Pass(text: Option<string>, binary: string, args: seq<string>)

  function PassOf(settings: Settings, binary: string, snap: Snapshot): (p: Pass)
    ensures p.text.None? <==>
      exists i :: 0 <= i < |snap.containers| && ProcessContainer(snap.containers[i], snap.sslExists).Crashed?
    ensures p.text.Some? ==>
      && ReadServices(snap.containers, snap.sslExists).Some?
      && p.text.value == Config(settings, ReadServices(snap.containers, snap.sslExists).value)
    ensures p.binary == binary && p.args == StartArgs(settings, snap)
  {
    match ReadServices(snap.containers, snap.sslExists)
    case None => Pass(None, binary, StartArgs(settings, snap))
    case Some(services) => Pass(Some(Config(settings, services)), binary, StartArgs(settings, snap))
  }

  /** The comparison in the loop: a pass whose reading panicked ends the
      program; otherwise the text is applied only when its fingerprint
      differs from the last one applied. */
  function Decide(s: State, p: Pass, digest: string -> string): (r: Step)
    ensures r.Fatal? <==> p.text.None?
    ensures r.Step? ==> r.state.lastHash == digest(p.text.value)
    ensures r.Step? ==> (r.actions == [] <==> s.lastHash == digest(p.text.value))
    ensures r.Step? && r.actions == [] ==> r.state == s
    ensures r.Step? && r.actions != [] ==> r == Apply(p.text.value, p.binary, p.args, digest)
  {
    match p.text
    case None => Fatal
    case Some(config) => if s.lastHash != digest(config) then Apply(config, p.binary, p.args, digest) else Step(s, [])
  }

  /** One pass of the poll loop: read the services, render, and apply
      only when the fingerprint differs from the last one applied. */
  function Cycle(s: State, settings: Settings, binary: string, snap: Snapshot, digest: string -> string): (r: Step)
    ensures r.Fatal? <==> exists i :: 0 <= i < |snap.containers| && ProcessContainer(snap.containers[i], snap.sslExists).Crashed?
    ensures r.Step? ==> ReadServices(snap.containers, snap.sslExists).Some?
    ensures r.Step? ==> r.state.lastHash == digest(Config(settings, ReadServices(snap.containers, snap.sslExists).value))
    ensures r.Step? ==> (r.actions == [] <==> s.lastHash == r.state.lastHash)
    ensures r.Step? && r.actions == [] ==> r.state == s
    ensures r.Step? && r.actions != [] ==>
      r.actions == [WriteConfig(ConfigPath, Config(settings, ReadServices(snap.containers, snap.sslExists).value)),
                    StartHAProxy(binary, StartArgs(settings, snap))]
  {
    Decide(s, PassOf(settings, binary, snap), digest)
  }

  /** A reload starts the binary found on the path with arguments that
      hand over from the running instance (`-x <sock> -sf <pid>`) exactly
      when the pid file names a live process, passing that pid; and since
      the slice is handed over as the whole argv, HAProxy never sees `-W`
      as an option (unless the socket path itself is `-W`). */
  lemma ReloadStart(s: State, settings: Settings, binary: string, snap: Snapshot, digest: string -> string)
    requires Cycle(s, settings, binary, snap, digest).Step? && Cycle(s, settings, binary, snap, digest).actions != []
    ensures var start := Cycle(s, settings, binary, snap, digest).actions[1];
      && start.StartHAProxy? && start.path == binary
      && (|start.argv| == 7 <==>
            exists p :: p > 0 && snap.alive(p) && snap.pidFile.Some? && FirstLine(snap.pidFile.value).Some?
                        && Atoi(FirstLine(snap.pidFile.value).value) == Some(p))
      && (|start.argv| == 7 ==> Atoi(start.argv[6]) == Atoi(FirstLine(snap.pidFile.value).value))
      && (settings.sockFile != "-W" ==> "-W" !in ParsedOptions(start.argv))
  {
    HotHandover(snap.pidFile, snap.alive, settings.sockFile);
    if settings.sockFile != "-W" {
      MasterWorkerFlagDropped(FindRunningPid(snap.pidFile, snap.alive), settings.sockFile);
    }
  }

  /** The number of reloads in a step. */
  function Reloads(r: Step): nat {
    if r.Step? && r.actions != [] then 1 else 0
  }

  /** Two consecutive passes whose texts have the same fingerprint reload
      at most once between them, and exactly once when the first one saw
      a new fingerprint. */
  lemma AtMostOneReload(s: State, p1: Pass, p2: Pass, digest: string -> string)
    requires p1.text.Some? && p2.text.Some? && digest(p1.text.value) == digest(p2.text.value)
    ensures var r1 := Decide(s, p1, digest);
      var r2 := Decide(r1.state, p2, digest);
      && r2 == Step(r1.state, [])
      && Reloads(r1) + Reloads(r2) == (if s.lastHash == digest(p1.text.value) then 0 else 1)
  {
  }

  /** A fingerprint shaped like MD5's hex encoding: 32 hex digits. */
  predicate IsMd5Hex(d: string) {
    |d| == 32 && forall i :: 0 <= i < |d| ==> d[i] in "0123456789abcdef"
  }

  /** `lastHash` starts at "-1", which no MD5 hex digest equals, so the
      first comparison always reloads. */
  lemma FirstComparisonReloads(p: Pass, digest: string -> string)
    requires p.text.Some? && IsMd5Hex(digest(p.text.value))
    ensures Reloads(Decide(Initial, p, digest)) == 1
  {
  }

  /** A list of containers that are all skipped or on no network reads as
      no services at all: nothing is collected under any key, and every
      service readServices returns has at least one backend. */
  lemma AllInertReadsNothing(cs: seq<Container>, e: string -> bool)
    requires forall i :: 0 <= i < |cs| ==> Inert(ProcessContainer(cs[i], e))
    ensures ReadServices(cs, e) == Some([])
  {
    ReadsOutcomes(cs, e);
    InertRunDescribesNothing(Outcomes(cs, e));
  }

  /** After start-up, a poll that finds nothing to balance does not
      reload: the idle configuration is already in place. */
  lemma IdleAfterStartup(settings: Settings, binary: string, boot: Snapshot, snap: Snapshot, digest: string -> string)
    requires forall i :: 0 <= i < |snap.containers| ==> Inert(ProcessContainer(snap.containers[i], snap.sslExists))
    ensures var r0 := Startup(settings, Some(binary), boot, digest);
      r0.Step? && Cycle(r0.state, settings, binary, snap, digest) == Step(r0.state, [])
  {
    AllInertReadsNothing(snap.containers, snap.sslExists);
  }

  /** When the services change, the rendered text changes too (for names
      and addresses that cannot be confused with the template), so unless
      the digest collides on the two texts, the cycle reloads. */
  lemma ChangedServicesReload(s: State, settings: Settings, binary: string, snap: Snapshot,
                              previous: seq<ServiceConfiguration>, digest: string -> string)
    requires Usable(settings.template)
    requires s.lastHash == digest(Config(settings, previous))
    requires ReadServices(snap.containers, snap.sslExists).Some?
    requires ReadServices(snap.containers, snap.sslExists).value != previous
    requires WellFormedServices(ReadServices(snap.containers, snap.sslExists).value) && WellFormedServices(previous)
    requires digest(Config(settings, ReadServices(snap.containers, snap.sslExists).value)) == digest(Config(settings, previous))
             ==> Config(settings, ReadServices(snap.containers, snap.sslExists).value) == Config(settings, previous)
    ensures Reloads(Cycle(s, settings, binary, snap, digest)) == 1
  {
    var ss := ReadServices(snap.containers, snap.sslExists).value;
    if digest(Config(settings, ss)) == s.lastHash {
      RenderInjective(settings.template, WholeConfiguration(ss, settings.statsPort),
                      WholeConfiguration(previous, settings.statsPort), settings.pidFile, settings.sockFile);
      assert false;
    }
  }

  /** Polling the same containers again, listed in any order and with
      each container's networks enumerated in any order, does not cause a
      reload, provided no two services share an address and port and no
      two backends of a service share a name (the sorts leave such ties
      in an unspecified order). */
  lemma ReorderedContainersNoReload(s: State, settings: Settings, binary: string,
                                    snap1: Snapshot, snap2: Snapshot, digest: string -> string)
    requires Cycle(s, settings, binary, snap1, digest).Step?
    requires TieFree(ReadServices(snap1.containers, snap1.sslExists).value)
    requires SameInventory(snap1.containers, snap2.containers) && snap2.sslExists == snap1.sslExists
    ensures var r1 := Cycle(s, settings, binary, snap1, digest);
      Cycle(r1.state, settings, binary, snap2, digest) == Step(r1.state, [])
  {
    ReadServicesSameInventory(snap1.containers, snap2.containers, snap1.sslExists);
  }

  /** A container that is skipped, or on no network, appearing in the
      list does not cause a reload, provided the services leave the sorts
      no ties to break (as for reordering). */
  lemma InertContainerNoReload(s: State, settings: Settings, binary: string, snap: Snapshot,
                               a: seq<Container>, c: Container, b: seq<Container>, digest: string -> string)
    requires snap.containers == a + b
    requires Cycle(s, settings, binary, snap, digest).Step?
    requires Inert(ProcessContainer(c, snap.sslExists))
    requires TieFree(ReadServices(snap.containers, snap.sslExists).value)
    ensures var r1 := Cycle(s, settings, binary, snap, digest);
      Cycle(r1.state, settings, binary, snap.(containers := a + [c] + b), digest) == Step(r1.state, [])
  {
    InertContainerChangesNothing(a, c, b, snap.sslExists);
  }

  /** The passes of the poll loop over successive snapshots. */
  function Passes(settings: Settings, binary: string, snaps: seq<Snapshot>): (ps: seq<Pass>)
    ensures |ps| == |snaps|
    ensures forall i :: 0 <= i < |snaps| ==> ps[i] == PassOf(settings, binary, snaps[i])
  {
    seq(|snaps|, i requires 0 <= i < |snaps| => PassOf(settings, binary, snaps[i]))
  }

  /** The poll loop over its passes, collecting the actions taken; it
      ends at the first fatal pass. */
  function Run(s: State, ps: seq<Pass>, digest: string -> string): Step
    decreases |ps|
  {
    if ps == [] then Step(s, [])
    else
      match Decide(s, ps[0], digest)
      case Fatal => Fatal
      case Step(next, actions) =>
        match Run(next, ps[1..], digest)
        case Fatal => Fatal
        case Step(last, more) => Step(last, actions + more)
  }

  /** `for { … }` in main.go over the snapshots its passes observe. */
  function Loop(s: State, settings: Settings, binary: string, snaps: seq<Snapshot>, digest: string -> string): Step {
    Run(s, Passes(settings, binary, snaps), digest)
  }

  /** The loop over snapshots stops exactly when, in some snapshot, a
      container's processing panics beyond recovery. */
  lemma LoopFatal(s: State, settings: Settings, binary: string, snaps: seq<Snapshot>, digest: string -> string)
    ensures Loop(s, settings, binary, snaps, digest).Fatal? <==>
      exists j, i :: 0 <= j < |snaps| && 0 <= i < |snaps[j].containers|
                     && ProcessContainer(snaps[j].containers[i], snaps[j].sslExists).Crashed?
  {
    var ps := Passes(settings, binary, snaps);
    RunFatal(s, ps, digest);
    forall j | 0 <= j < |snaps|
      ensures ps[j].text.None? <==>
        exists i :: 0 <= i < |snaps[j].containers| && ProcessContainer(snaps[j].containers[i], snaps[j].sslExists).Crashed?
    {
      assert ps[j] == PassOf(settings, binary, snaps[j]);
    }
  }

  /** Every pass rendered a text. */
  predicate AllRendered(ps: seq<Pass>) {
    forall i :: 0 <= i < |ps| ==> ps[i].text.Some?
  }

  lemma RenderedCons(ps: seq<Pass>)
    requires ps != []
    ensures AllRendered(ps) <==> ps[0].text.Some? && AllRendered(ps[1..])
  {
    if ps[0].text.Some? && AllRendered(ps[1..]) {
      forall i | 0 < i < |ps|
        ensures ps[i].text.Some?
      {
        assert ps[i] == ps[1..][i - 1];
      }
    }
  }

  /** The loop stops exactly when some pass meets a container whose
      processing panics beyond recovery. */
  lemma {:induction false} RunFatal(s: State, ps: seq<Pass>, digest: string -> string)
    ensures Run(s, ps, digest).Fatal? <==> !AllRendered(ps)
    decreases |ps|
  {
    if ps != [] {
      RenderedCons(ps);
      var first := Decide(s, ps[0], digest);
      if first.Step? {
        RunFatal(first.state, ps[1..], digest);
      }
    }
  }

  /** The fingerprints of the texts of successive passes. */
  function Fingerprints(ps: seq<Pass>, digest: string -> string): (hs: seq<string>)
    requires AllRendered(ps)
    ensures |hs| == |ps|
    decreases |ps|
  {
    if ps == [] then []
    else
      RenderedCons(ps);
      [digest(ps[0].text.value)] + Fingerprints(ps[1..], digest)
  }

  /** How many entries of `hs` differ from the entry before them, the
      first one being compared with `previous`. */
  function Changes(previous: string, hs: seq<string>): nat
    decreases |hs|
  {
    if hs == [] then 0 else (if hs[0] != previous then 1 else 0) + Changes(hs[0], hs[1..])
  }

  /** Over any number of passes none of which is fatal, the loop reloads
      once per change of fingerprint, each reload writing the file and
      starting an instance, and ends remembering the last fingerprint. */
  lemma {:induction false} RunReloads(s: State, ps: seq<Pass>, digest: string -> string)
    requires AllRendered(ps)
    ensures var r := Run(s, ps, digest);
      var hs := Fingerprints(ps, digest);
      && r.Step?
      && |r.actions| == 2 * Changes(s.lastHash, hs)
      && r.state.lastHash == (if ps == [] then s.lastHash else hs[|hs| - 1])
    decreases |ps|
  {
    if ps != [] {
      RenderedCons(ps);
      var first := Decide(s, ps[0], digest);
      RunReloads(first.state, ps[1..], digest);
    }
  }

  /** Passes that all render texts with one fingerprint reload at most
      once in total, and not at all when that fingerprint is already the
      one applied. */
  lemma {:induction false} StableFingerprintReloadsOnce(s: State, ps: seq<Pass>, digest: string -> string, h: string)
    requires forall i :: 0 <= i < |ps| ==> ps[i].text.Some? && digest(ps[i].text.value) == h
    ensures var r := Run(s, ps, digest);
      r.Step? && |r.actions| == (if ps == [] || s.lastHash == h then 0 else 2)
    decreases |ps|
  {
    if ps != [] {
      var first := Decide(s, ps[0], digest);
      assert forall i :: 0 <= i < |ps[1..]| ==> ps[1..][i] == ps[i + 1];
      StableFingerprintReloadsOnce(first.state, ps[1..], digest, h);
    }
  }
}
