/** The decisions main.go takes about the HAProxy process: which pid the
    pid file names (`findRunningHAProxyPid`) and the command line a new
    instance is started with (`startNewHAProxy`). Opening the file, the
    signal-0 probe and the process start itself are inputs or left out. */
module Supervisor {
  import opened Options
  import opened Decimal
  import opened Strings

  const ConfigPath := "/usr/local/etc/haproxy/haproxy.cfg"

  /** The first token of a `bufio.Scanner` with its default line
      splitting: the text up to the first line break (all of it when
      there is none) without one trailing carriage return, or `None` when
      the file is empty. */
  function FirstLine(contents: string): (r: Option<string>)
    ensures r.None? <==> contents == ""
    ensures r.Some? ==> '\n' !in r.value
    ensures r.Some? ==> EndsLine(contents, r.value) || EndsLine(contents, r.value + "\r")
    ensures r.Some? && EndsLine(contents, r.value) ==> |r.value| == 0 || r.value[|r.value| - 1] != '\r'
  {
    if contents == "" then None
    else
      var raw := if '\n' in contents then contents[..FirstIndex(contents, '\n')] else contents;
      FirstIndexBefore(contents, '\n');
      assert EndsLine(contents, raw) by {
        if '\n' in contents {
          var rest := contents[|raw| + 1..];
          assert contents == raw + "\n" + rest;
        }
      }
      if |raw| > 0 && raw[|raw| - 1] == '\r' then
        assert raw == raw[..|raw| - 1] + "\r";
        Some(raw[..|raw| - 1])
      else
        Some(raw)
  }

  /** `contents` is `line` alone or `line` followed by a line break. */
  ghost predicate EndsLine(contents: string, line: string)
  {
    contents == line || exists rest :: contents == line + "\n" + rest
  }

  /** Nothing before the first occurrence of `c` is `c`. */
  lemma FirstIndexBefore(s: string, c: char)
    ensures c in s ==> c !in s[..FirstIndex(s, c)]
  {
    if c in s {
      FirstIndexMinimal(s, c);
    }
  }

  lemma {:induction false} FirstIndexMinimal(s: string, c: char)
    requires c in s
    ensures forall i :: 0 <= i < FirstIndex(s, c) ==> s[i] != c
    decreases |s|
  {
    if s[0] != c {
      assert c in s[1..] by {
        var k :| 0 <= k < |s| && s[k] == c;
        assert s[1..][k - 1] == c;
      }
      FirstIndexMinimal(s[1..], c);
      forall i | 0 < i < FirstIndex(s, c)
        ensures s[i] != c
      {
        assert s[i] == s[1..][i - 1];
      }
    }
  }

  /** A line HAProxy writes, followed by a line break, reads back as itself. */
  lemma FirstLineOfWritten(line: string, rest: string)
    requires '\n' !in line && (|line| == 0 || line[|line| - 1] != '\r')
    ensures FirstLine(line + "\n" + rest) == Some(line)
  {
    var contents := line + "\n" + rest;
    assert contents[|line|] == '\n';
    FirstIndexOfSeparator(line, '\n', rest);
    assert contents[..|line|] == line;
  }

  /** `findRunningHAProxyPid`: `pidFile` is the file's contents when it
      can be opened and `alive` stands for the signal-0 probe. A first line
      that is not an integer counts as -1; a non-positive number is
      returned as it is, without probing. */
  function FindRunningPid(pidFile: Option<string>, alive: int -> bool): (pid: int)
    ensures pid > 0 <==>
      && pidFile.Some?
      && FirstLine(pidFile.value).Some?
      && Atoi(FirstLine(pidFile.value).value).Some?
      && Atoi(FirstLine(pidFile.value).value).value > 0
      && alive(Atoi(FirstLine(pidFile.value).value).value)
    ensures pid > 0 ==> pid == Atoi(FirstLine(pidFile.value).value).value
    ensures pid <= 0 ==>
      || pid == -1
      || (pidFile.Some? && FirstLine(pidFile.value).Some? && Atoi(FirstLine(pidFile.value).value) == Some(pid))
    ensures MinInt64 <= pid <= MaxInt64
  {
    match pidFile
    case None => -1
    case Some(contents) =>
      var parsed :=
        match FirstLine(contents)
        case None => -1
        case Some(line) => if Atoi(line).Some? then Atoi(line).value else -1;
      if parsed > 0 && !alive(parsed) then -1 else parsed
  }

  /** The argument vector of `startNewHAProxy`. */
  function HAProxyArgs(pid: int, sockFile: string): (args: seq<string>)
    ensures |args| >= 3 && args[..3] == ["-W", "-f", ConfigPath]
    ensures |args| == 7 <==> pid > 0
    ensures |args| == 3 <==> pid <= 0
    ensures pid > 0 ==> args[3] == "-x" && args[4] == sockFile && args[5] == "-sf"
    ensures pid > 0 ==> ParseDecimal(args[6]) == Some(pid)
  {
    ParseItoa(pid);
    ["-W", "-f", ConfigPath] + (if pid > 0 then ["-x", sockFile, "-sf", Itoa(pid)] else [])
  }

  /** The command line a new instance gets hands over from a running one
      (`-x` and `-sf`) exactly when the pid file names a live process,
      and the pid passed is the one the file names. */
  lemma HotHandover(pidFile: Option<string>, alive: int -> bool, sockFile: string)
    ensures var args := HAProxyArgs(FindRunningPid(pidFile, alive), sockFile);
      && (|args| == 7 <==>
            exists p :: p > 0 && alive(p) && pidFile.Some? && FirstLine(pidFile.value).Some?
                        && Atoi(FirstLine(pidFile.value).value) == Some(p))
      && (|args| == 7 ==> Atoi(args[6]) == Atoi(FirstLine(pidFile.value).value))
  {
    var pid := FindRunningPid(pidFile, alive);
    if pid > 0 {
      AtoiItoa(pid);
    }
  }

  /** What HAProxy writes to its pid file, a pid and a line break, is
      read back as that pid when the process is alive, and as -1
      otherwise. */
  lemma PidFileRoundTrip(p: int, rest: string, alive: int -> bool)
    requires 0 < p <= MaxInt64
    ensures FindRunningPid(Some(Itoa(p) + "\n" + rest), alive) == if alive(p) then p else -1
  {
    ItoaExcludes(p, '\n');
    ItoaExcludes(p, '\r');
    ItoaAlphabet(p);
    FirstLineOfWritten(Itoa(p), rest);
    AtoiItoa(p);
  }

  /** The options a started HAProxy parses out of the argv it was given:
      `os.StartProcess` hands its slice over as the new process's whole
      argv, and the first entry of an argv is the program name. */
  function ParsedOptions(argv: seq<string>): (opts: seq<string>)
    ensures |argv| > 0 ==> argv == [argv[0]] + opts
    ensures |argv| == 0 ==> opts == []
  {
    if |argv| == 0 then [] else argv[1..]
  }

  /** As written, `startNewHAProxy` passes `HAProxyArgs` as the whole argv,
      so `-W` takes the program-name slot and master-worker mode is never
      requested, whatever pid and socket path are in play. */
  lemma MasterWorkerFlagDropped(pid: int, sockFile: string)
    requires sockFile != "-W"
    ensures HAProxyArgs(pid, sockFile)[0] == "-W"
    ensures "-W" !in ParsedOptions(HAProxyArgs(pid, sockFile))
  {
    var args := HAProxyArgs(pid, sockFile);
    if pid > 0 {
      ItoaExcludes(pid, 'W');
      assert "-W"[1] == 'W';
    }
  }

  /** The launch argv with the binary in the program-name slot, so HAProxy
      parses exactly the options `HAProxyArgs` builds, `-W` included. */
  function LaunchArgv(binary: string, pid: int, sockFile: string): (argv: seq<string>)
    ensures |argv| > 0 && argv[0] == binary
    ensures ParsedOptions(argv) == HAProxyArgs(pid, sockFile)
    ensures "-W" in ParsedOptions(argv)
  {
    [binary] + HAProxyArgs(pid, sockFile)
  }
}
