# docker-loadbalancer controller, modelled in Dafny

`main.go` runs a small controller next to HAProxy. Every few seconds it
lists the Docker containers labelled for load balancing. It turns each
container into endpoints (`processContainer`) and groups them by
published port, bind address and certificate (`readServices`). Then it
renders an HAProxy configuration from a built-in template
(`generateHAProxyConfig`) and fingerprints the text with MD5. When the
fingerprint differs from the last one applied, it writes the file and
starts a new HAProxy. When the pid file names a live instance, the new
one takes over from it (`-x <socket> -sf <pid>`).

This project models that decision logic as pure functions over immutable
data and proves what it promises:

- which containers become backends, and under which key;
- how services and backends are ordered;
- what the rendered text contains, and that it determines the services;
- when a reload fires;
- whether a reload is a hot handover.

| file | module | models |
|---|---|---|
| `options.dfy` | `Options` | the `Option` type |
| `decimal.dfy` | `Decimal` | `strconv.Atoi` (64-bit) and `strconv.Itoa` |
| `strings.dfy` | `Strings` | Go's string order, and splitting at a separator |
| `sorting.dfy` | `Sorting` | "sorted by a key" and "some sorted permutation" |
| `model.dfy` | `Model` | `Endpoint`, `GroupKey`, `ServiceConfiguration`, `WholeConfiguration`, the container summary |
| `extract.dfy` | `Extract` | `processContainer` |
| `grouping.dfy` | `Grouping` | the group map and `readServices` |
| `determinism.dfy` | `Determinism` | what `readServices` does not depend on |
| `render.dfy` | `Render` | the built-in template |
| `supervisor.dfy` | `Supervisor` | `findRunningHAProxyPid` and the HAProxy command line |
| `reconciler.dfy` | `Reconciler` | environment settings, start-up, the poll loop and `applyConfiguration` |

Inputs that the code obtains from the operating system are parameters:

- the container list;
- `sslExists`, for "`os.Stat` on the certificate path does not report it
  as missing" (`os.IsNotExist`);
- the pid file's contents, or `None` when it cannot be opened;
- `alive`, for the signal-0 probe;
- the environment lookup;
- whether `haproxy` is on the path;
- `digest`, for MD5 followed by hex encoding.

Writing the file and starting the process are returned as actions. The
start action records the two arguments `startNewHAProxy` hands to
`os.StartProcess` as the code does: the binary path and the argument
slice, which becomes the new process's whole argv (see "## Findings").

How Go's semantics are modelled:

- A label that is missing reads as `""`, as a Go map lookup does.
- The networks of a container are a sequence of IP addresses, in the
  order Go enumerates the map.
- The group map is iterated in first-insertion order, which is one of
  the orders Go may use; Go picks a fresh order on every call, and so it
  does for the networks of a container. `Grouping.ReadServices` is
  therefore one of the results the code may return. Every property of
  the service list that another run must share is stated for all lists
  that satisfy `Grouping.Describes`, or is proved only for tie-free
  lists, where `Describes` has exactly one solution
  (`Determinism.DescribesUnique`).
- `sort.Slice` is unstable, so each sort is specified as "some sorted
  permutation". Identical output under reordered input is proved only
  where no sort meets a tie (`Determinism.TieFree`).
- A failing container is recovered by its deferred function, but that
  function evaluates `container.Names[0][1:]` again. The endpoint
  constructor evaluates it too. When the container has no names, or an
  empty first name, this panics outside any recovery and the controller
  dies. The model calls this outcome `Crashed`, which makes a cycle
  `Fatal`.
- Go strings are byte sequences; the model's are sequences of Unicode
  characters. Character order agrees with Go's byte order, and dropping
  the first character of a name agrees with `[1:]`, on valid UTF-8 text
  whose first character is one byte. The names and labels come from
  Docker's JSON, which is valid UTF-8, and container names start with
  `/`.
- Some functions only assemble results: `Model.Label`,
  `Reconciler.EnvInteger`, `Reconciler.Apply`, `Reconciler.StartArgs`,
  `Reconciler.Startup` and `Reconciler.PassOf`. What they promise is
  stated by the members that use them: `Extract.ProcessContainer`,
  `Reconciler.EnvIntegerRoundTrip`, `Reconciler.ReadSettings`,
  `Reconciler.Cycle`, `Reconciler.ReloadStart` and
  `Reconciler.IdleAfterStartup`.

Two behaviours of the code worth knowing:

- Services are sorted by the string `IP + " " + itoa(Port)`, not by a
  numeric port. On one address, port 10000 comes before port 80.
- The code has no crash-restart budget. The goroutine waiting on HAProxy
  only logs its exit.

## Model

| member | source | states |
|---|---|---|
| Decimal.Atoi | main.go:228-236 | Parsing fails on empty text. A parsed value lies in the int64 range, and its text is an optional sign followed by at least one digit and nothing else, so a lone `+` or `-` fails. |
| Decimal.AtoiAccepts | main.go:228-236 | Conversely, an optional `+` or `-` followed by one or more digits, leading zeros and `-0` included, parses to the value it denotes exactly when that value is in the int64 range, and fails otherwise. |
| Decimal.AtoiItoa | main.go:393 | `Itoa` of any int64 value parses back with `Atoi` to the same value. |
| Decimal.ItoaInjective | main.go:215 | Different numbers have different decimal texts. |
| Decimal.ItoaExcludes | main.go:215 | A decimal text holds only digits and `-`, so it has no space, line break or other separator. |
| Strings.LessTotal | main.go:208 | `strings.Compare(a, b) < 0` relates any two different strings in one direction. |
| Strings.LessTransitive | main.go:208 | The string order is transitive. |
| Strings.LessIrreflexive | main.go:208 | No string is below itself. |
| Strings.SplitAtLast | main.go:215 | Two texts `a c x` and `b c y` are equal only if `a = b` and `x = y`, when `x` and `y` do not contain the separator `c`. |
| Sorting.SortBy | main.go:207-209 | The result is sorted by the key and is a permutation of the input. |
| Sorting.SortedPermutationUnique | main.go:214-216 | Two sorted permutations of the same elements are equal when the key is injective on them. So `sort.Slice` is deterministic when there are no ties. |
| Extract.ProcessContainer | main.go:221-256 | These properties of the outcome hold: The controller crashes exactly when the name is unreadable and the container either fails a check or has a network. The container is skipped exactly when the name is readable and a check fails. The reason names the first failed check, in the order publish, target, certificate. On success the key is `(publish, lb.dst_addr, lb.ssl)`, and `os.Stat` did not report a non-empty certificate path as missing. There is one endpoint per network, named after the first container name without its first character, with that network's address and the target port. |
| Grouping.AddEndpoints | main.go:251-253 | These endpoints are appended under the key, and no other key changes. A key appears only when at least one endpoint is added. |
| Grouping.GroupOutcomes | main.go:199-201 | The loop over containers crashes exactly when one container crashes. Otherwise the map holds, under each key, exactly the multiset of endpoints the outcomes contribute there, and only keys that received an endpoint. |
| Grouping.BuildServices | main.go:203-211 | Each service is built from one map key in iteration order, and holds that key's endpoints sorted by name. |
| Grouping.ServicesOf | main.go:203-218 | The service list describes the outcomes, as `Grouping.ReadServices` states. |
| Grouping.ReadServices | main.go:188-219 | The result is `None` exactly when a container crashes the controller. Otherwise these hold: Each service holds every endpoint contributed under its key, with at least one, sorted by name. Every key that received an endpoint has exactly one service. The list is sorted by `IP + " " + Itoa(Port)`. |
| Determinism.ServiceOrderKeyInjective | main.go:215 | Two services have the same sort key exactly when they have the same address and port. |
| Determinism.TallyPermutation | main.go:199-201 | The endpoints collected under a key do not depend on the order of the containers. |
| Determinism.ContributionPermutation | main.go:199-201 | The same holds for the containers themselves, through their outcomes. |
| Determinism.AnyCrashedPermutation | main.go:199-201 | Whether some container crashes does not depend on their order. |
| Determinism.DescribesUnique | main.go:203-216 | Two service lists that describe the same endpoints are equal when the first has no ties: no two services share an address and port, and no two backends of a service share a name. |
| Determinism.ReadServicesPermutation | main.go:188-219 | A reordered container list crashes exactly when the original does. Without ties, it yields the same service list. |
| Determinism.GroupOutcomesInert | main.go:199-201 | A skipped container, or one on no network, leaves the group map as it was, wherever it occurs. |
| Determinism.InertContainerChangesNothing | main.go:221-256 | A container that is skipped, or that has no network, contributes nothing. Adding it does not change whether `readServices` crashes, and when the result has no sort ties it leaves the result unchanged. |
| Render.BuiltInUsable | main.go:287-289 | The third character of the built-in stats block is the `l` of `listen`, which distinguishes it from the text that follows when stats are off. |
| Render.SslOption | main.go:298 | ` ssl crt <path>` is emitted exactly when the certificate path is non-empty. |
| Render.SslOptionDecode | main.go:298 | The emitted option determines the certificate path. |
| Render.FrontendDecode | main.go:297-298 | The frontend name `port_<IP>_<Port>` and its bind line determine the key, when the address and certificate path hold no line break. |
| Render.ServerLineDecode | main.go:306-307 | A `server <Name> <IP>:<Port>` line determines its endpoint, when the name holds no space or line break and the address holds no line break. |
| Render.BlocksAppend | main.go:297-308 | The range over services emits the blocks of the services one after another, in list order. |
| Render.ServerLinesAppend | main.go:306-307 | The range over backends emits one server line per backend, in backend order. |
| Render.ServiceListed | main.go:297-308 | The block of every service occurs in the configuration text. |
| Render.BackendListed | main.go:306-307 | The server line of every backend occurs in its service's block. |
| Render.StatsListed | main.go:287-295 | The stats `listen` block is present exactly when the stats port is positive. |
| Render.StatsDecode | main.go:287-295 | The stats section determines whether stats are enabled, and the port when they are. |
| Render.RenderInjective | main.go:260-308 | Two configurations that render the same text have the same services and the same stats setting, for names and addresses that cannot be confused with the template. |
| Supervisor.FirstLine | main.go:364-365 | The first scanned line is absent only for an empty file. It holds no line break, and is followed in the file by the end of the text or a line break. One carriage return before that point is removed, and a line that reaches that point does not end in a carriage return. |
| Supervisor.FirstLineOfWritten | main.go:364-365 | A line written with a line break after it scans back as itself. |
| Supervisor.FindRunningPid | main.go:360-385 | The pid is positive exactly when the file opens, its first line parses to a positive number, and that process answers the probe; the pid is then that number. Any other result is -1, or the non-positive number the line holds. |
| Supervisor.PidFileRoundTrip | main.go:360-385 | A pid file HAProxy wrote reads back as its pid when the process is alive, and as -1 otherwise. |
| Supervisor.HAProxyArgs | main.go:389-394 | The arguments always start `-W -f /usr/local/etc/haproxy/haproxy.cfg`. `-x <sock> -sf <pid>` is appended exactly when the pid is positive, and the last argument parses back to the pid. |
| Supervisor.HotHandover | main.go:389-394 | A new instance hands over from a running one exactly when the pid file names a live process, and is passed that pid. |
| Supervisor.MasterWorkerFlagDropped | main.go:402 | As written, `-W` is the argv's first entry, so HAProxy never parses it as an option. |
| Supervisor.LaunchArgv | main.go:402 | With the binary in the program-name slot, HAProxy parses exactly the built options, `-W` included. |
| Reconciler.EnvIntegerRoundTrip | main.go:158-171 | A number written into a variable reads back as itself. |
| Reconciler.ReadSettings | main.go:136-156 | Reading the settings is fatal exactly when a numeric variable does not parse. The check interval is positive, with 5 replacing values of zero or less. The pid file and socket default to `/tmp/haproxy.pid` and `/tmp/haproxy.sock` unless set. |
| Reconciler.Decide | main.go:104-108 | A pass without text is fatal. Otherwise the new fingerprint is recorded, and the step reloads exactly when it differs from the previous one; a step that does not reload leaves the state as it was. |
| Reconciler.Cycle | main.go:92-110 | A cycle is fatal exactly when a container crashes the controller. Otherwise it records the new fingerprint, and reloads exactly when the fingerprint differs from the previous one, writing the new text first. |
| Reconciler.ReloadStart | main.go:387-402 | A reload starts the binary found on the path. Its arguments hand over from the running instance exactly when the pid file names a live process, and pass that pid. Because the slice is the whole argv, HAProxy does not see `-W` as an option. |
| Reconciler.AtMostOneReload | main.go:104-108 | Two consecutive passes whose texts have the same fingerprint reload at most once, and exactly once when the first saw a new fingerprint. |
| Reconciler.FirstComparisonReloads | main.go:57 | From the initial `"-1"`, a pass reloads whenever the fingerprint has the shape of an MD5 hex digest. |
| Reconciler.AllInertReadsNothing | main.go:188-219 | A list of skipped containers, or containers on no network, reads as no services. |
| Reconciler.IdleAfterStartup | main.go:119-128 | After start-up, a cycle that finds nothing to balance does not reload. |
| Reconciler.ChangedServicesReload | main.go:103-108 | When the services differ from the ones last applied, the cycle reloads, unless the digest collides on the two texts. |
| Determinism.SameContainerPart | main.go:251-253 | The same container contributes the same endpoints under every key, whatever order its networks are enumerated in. |
| Determinism.ReadServicesSameInventory | main.go:188-219 | Polling the same containers again, listed in any order and with each container's networks in any order, crashes exactly when the first poll does, and yields the same service list when that list has no sort ties. |
| Reconciler.ReorderedContainersNoReload | main.go:188-219 | Polling the same containers again, in any listing order and any network order, causes no reload, when there are no sort ties. |
| Reconciler.InertContainerNoReload | main.go:221-256 | A skipped container, or one on no network, appearing in the list causes no reload, when the services leave the sorts no ties. |
| Reconciler.LoopFatal | main.go:92-110 | The loop over successive snapshots stops exactly when, in some snapshot, a container crashes the controller. |
| Reconciler.RunFatal | main.go:92-110 | The loop stops exactly when some pass meets a container that crashes the controller. |
| Reconciler.RunReloads | main.go:92-110 | Over passes that are not fatal, the loop takes two actions per change of fingerprint, and ends remembering the last fingerprint. |
| Reconciler.StableFingerprintReloadsOnce | main.go:104-108 | Passes that all render texts with one fingerprint reload at most once in total. They do not reload at all when that fingerprint is already applied. |

## Left out

- The Docker client (`NewClientWithOpts`, `ContainerList`) and the
  `lb.enable=Y` filter. The filtered container list is an input.
- A Docker error while listing containers, which panics. The model
  starts from a list that was obtained.
- `NetworkSettings` being nil. The model's container always has a,
  possibly empty, network list.
- `os.Stat` on the certificate. Whether it reports the path as missing
  (`os.IsNotExist`, on Unix only ENOENT) is the `sslExists` input. Any
  other error keeps the container with that certificate path, so a path
  through a regular file (ENOTDIR) or an unsearchable directory (EACCES)
  is accepted although HAProxy will not load it. The model follows the
  code here: `sslExists` is true for such paths.
- The `/haproxy.tmpl` override and general `text/template` execution.
  Only the built-in template is modelled, as text pieces in a `Template`
  record; `Render.BuiltIn` holds the built-in text.
- Template parse or execution errors. The built-in template has none.
- MD5 and hex encoding. The fingerprint is an abstract `digest`
  function. Lemmas that need its properties take them as hypotheses: no
  collision on two texts, or the shape of a hex digest.
- `writeFile` and its errors, which the code ignores. The write is the
  `WriteConfig` action.
- Process start, including a failing `StartProcess` and its `log.Fatal`.
  Also left out: `process.Wait`, the one-second sleeps and the poll
  interval's sleep.
- The exit-signal goroutine, which kills the pid found by
  `findRunningHAProxyPid` on SIGHUP, SIGINT, SIGTERM or SIGQUIT. This is
  signal and concurrency plumbing.
- Logging: `printCurrentServices`, the `noServicesPrinted` flag and every
  `log.Println`. None of them affects a decision.
- `bufio.Scanner`'s 64 KiB line limit. A longer first line in the pid
  file fails the scan; the model reads it anyway.
- Supervisor.FindRunningPid: `os.FindProcess` is treated as always
  succeeding, as it does on Unix. A failing probe, including a
  permission error, counts as "not alive".
- Determinism.ReadServicesPermutation: byte-identical results are
  proved only when no sort meets a tie. With ties, `sort.Slice` leaves
  the order unspecified, so the result may depend on the order Docker
  lists the containers in.
- Render.RenderInjective: proved only for backend names without spaces
  or line breaks, and for addresses and certificate paths without line
  breaks. Other names can make two service lists render the same text.
- Reconciler.InertContainerNoReload: proved only when the services
  have no sort ties. With ties, Go's map iteration and `sort.Slice` may
  order the tied entries differently on every call, so the code may
  reload whether or not the inert container is present.
- Determinism.InertContainerChangesNothing: the unchanged result is
  proved only when there are no sort ties, for the same reason.
- Reconciler.ChangedServicesReload: holds only when the digest does not
  collide on the two texts. MD5 is not modelled.

## Findings

| source | as written | input that shows it | evidently intended | confidence | as-written member | corrected member |
|---|---|---|---|---|---|---|
| main.go:389-402 | The argument slice starting `-W` is passed to `os.StartProcess` as the whole argv. Its first entry is the program name, so `-W` (master-worker mode) is never parsed. | Any start, for example with no running instance. The argv is `["-W", "-f", "/usr/local/etc/haproxy/haproxy.cfg"]`, and HAProxy parses only `-f /usr/local/etc/haproxy/haproxy.cfg`. | The argv begins with the binary path, so HAProxy parses `-W -f <config>` and the handover options. | not executed; high, because `os.StartProcess` passes argv on as the new process's `os.Args` | Supervisor.MasterWorkerFlagDropped | Supervisor.LaunchArgv |

The controller model keeps the call as written: its start action
carries the argument slice itself, and `Reconciler.ReloadStart` shows
that no reload it performs asks for master-worker mode.
`Supervisor.LaunchArgv` is the argv the call should pass.
