/**
 * The service's handling of the Node.js child: `setExecutablePermission` on the bundled
 * `node` binary, `startNodeProcess` (existence check, command line, environment, spawn)
 * and `stopNodeProcess`, over the single `nodeProcess` handle.
 *
 * The operating system is an oracle: whether `chmod` exits 0 or throws, whether
 * `ProcessBuilder.start` yields a process or throws, and how `waitFor` ends. Processes
 * are identified by a counter the host hands out, so a new child is never confused with
 * an old one.
 */
module ProcessSupervisor {
  import opened Basics
  import opened FsTree

  /** The asset directory, and the private directory, that hold the bundle. */
  const TriliumDirName: Name := "trilium"

  /** The script the runtime is started with, at the bundle root. */
  const ScriptName: Name := "main.cjs"

  /** The Node.js binary, relative to the bundle root. */
  const NodeExecutable: Path := ["node", "bin", "node"]

  /** The environment variables the service sets for the child. */
  const OpensslConf: string := "OPENSSL_CONF"
  const LibraryPath: string := "LD_LIBRARY_PATH"
  const Home: string := "HOME"

  type Environment = map<string, string>

  /** `File(parent, child).absolutePath` for an absolute `parent` without a trailing slash. */
  function Under(parent: string, child: string): string
  {
    parent + "/" + child
  }

  /** `nodeDir`: the private copy of the bundle inside the app's files directory. */
  function NodeDir(filesDir: string): string
  {
    Under(filesDir, TriliumDirName)
  }

  /**
   * The command line of the child: the binary, then the script, both as absolute paths.
   * They are the very files the existence check looks up, `NodeExecutable` and
   * `[ScriptName]` below the bundle.
   */
  function Command(filesDir: string): (c: seq<string>)
    ensures |c| == 2
    ensures c == [Under(NodeDir(filesDir), PathText(NodeExecutable)), Under(NodeDir(filesDir), PathText([ScriptName]))]
  {
    NodeExecutableText();
    [Under(NodeDir(filesDir), "node/bin/node"), Under(NodeDir(filesDir), ScriptName)]
  }

  /** The binary's path in the bundle, written out. */
  lemma NodeExecutableText()
    ensures PathText(NodeExecutable) == "node/bin/node"
  {
    assert NodeExecutable[1..] == ["bin", "node"];
    assert NodeExecutable[1..][1..] == ["node"];
    assert PathText(["bin", "node"]) == "bin/node";
  }

  /**
   * The child's environment: the one it inherits, with `OPENSSL_CONF` pointing at the
   * bundle's `openssl.cnf`, `LD_LIBRARY_PATH` at the bundle's `lib`, and `HOME` at the
   * app's files directory (not at the bundle), every other variable passed through as is.
   */
  function ChildEnvironment(inherited: Environment, filesDir: string): (env: Environment)
    ensures env.Keys == inherited.Keys + {OpensslConf, LibraryPath, Home}
    ensures env[OpensslConf] == Under(NodeDir(filesDir), "node/bin/openssl.cnf")
    ensures env[LibraryPath] == Under(NodeDir(filesDir), "node/lib")
    ensures env[Home] == filesDir
    ensures forall k :: k in inherited && k !in {OpensslConf, LibraryPath, Home} ==> env[k] == inherited[k]
  {
    inherited[OpensslConf := Under(NodeDir(filesDir), "node/bin/openssl.cnf")]
             [LibraryPath := Under(NodeDir(filesDir), "node/lib")]
             [Home := filesDir]
  }

  /** Two inherited environments that differ only in the three overridden variables give the same child environment. */
  lemma OverridesHideInherited(a: Environment, b: Environment, filesDir: string)
    requires a.Keys + {OpensslConf, LibraryPath, Home} == b.Keys + {OpensslConf, LibraryPath, Home}
    requires forall k :: k in a && k in b && k !in {OpensslConf, LibraryPath, Home} ==> a[k] == b[k]
    ensures ChildEnvironment(a, filesDir) == ChildEnvironment(b, filesDir)
  {
  }

  /** Applying the three overrides twice is the same as applying them once. */
  lemma ChildEnvironmentStable(inherited: Environment, filesDir: string)
    ensures ChildEnvironment(ChildEnvironment(inherited, filesDir), filesDir) == ChildEnvironment(inherited, filesDir)
  {
  }

  /** How `Runtime.exec("chmod 755 …").waitFor()` ends. */
  datatype ExecOutcome = ExitCode(code: int) | ExecThrows

  /** What `setExecutablePermission` did: nothing (the binary is missing), or ran `chmod`. */
  datatype Permission = Skipped | Chmod(command: string, granted: bool)

  /**
   * `setExecutablePermission(nodeExecutableFile)`: with the private bundle `bundle`, skip
   * when the binary does not exist; otherwise run `chmod 755` on its absolute path, which
   * grants the permission only when it exits with 0. Failures are logged, never raised.
   */
  function SetExecutablePermission(bundle: Option<Node>, filesDir: string, outcome: ExecOutcome): (r: Permission)
    ensures r.Skipped? <==> LookupIn(bundle, NodeExecutable).None?
    ensures r.Chmod? ==> r.command == "chmod 755 " + Command(filesDir)[0]
    ensures r.Chmod? ==> (r.granted <==> outcome == ExitCode(0))
  {
    if LookupIn(bundle, NodeExecutable).None? then Skipped
    else
      var command := "chmod 755 " + Under(NodeDir(filesDir), "node/bin/node");
      match outcome
      case ExitCode(code) => Chmod(command, code == 0)
      case ExecThrows => Chmod(command, false)
  }

  /** How `ProcessBuilder.start()` ends. */
  datatype SpawnOutcome = Spawned | SpawnThrows

  /** One call of `ProcessBuilder.start()`: the command line and the environment it was given. */
  datatype Launch = Launch(command: seq<string>, environment: Environment)

  /**
   * What the service and the system know about children: the `nodeProcess` handle, the
   * processes still alive, every launch attempted, and the identity the next child gets.
   */
  datatype Host = Host(handle: Option<nat>, alive: set<nat>, launches: seq<Launch>, nextPid: nat)

  /** Every process the host knows of was handed out before. */
  predicate Valid(h: Host)
  {
    && (forall pid :: pid in h.alive ==> pid < h.nextPid)
    && (h.handle.Some? ==> h.handle.value < h.nextPid)
  }

  /** The existence check before the spawn: both the binary and the script must exist. */
  predicate CanLaunch(bundle: Option<Node>)
  {
    LookupIn(bundle, NodeExecutable).Some? && LookupIn(bundle, [ScriptName]).Some?
  }

  /**
   * `startNodeProcess`: when the binary or the script is missing nothing happens; otherwise
   * the launch is attempted, and a successful one stores the new child in the handle,
   * whatever the handle held before.
   */
  function StartNodeProcess(h: Host, bundle: Option<Node>, filesDir: string, inherited: Environment, spawn: SpawnOutcome): (r: Host)
    requires Valid(h)
    ensures Valid(r)
    ensures !CanLaunch(bundle) ==> r == h
    ensures CanLaunch(bundle) ==> r.launches == h.launches + [Launch(Command(filesDir), ChildEnvironment(inherited, filesDir))]
    ensures CanLaunch(bundle) && spawn == Spawned ==>
      r.handle == Some(h.nextPid) && r.alive == h.alive + {h.nextPid} && h.nextPid !in h.alive
    ensures spawn == SpawnThrows ==> r.handle == h.handle && r.alive == h.alive
  {
    if !CanLaunch(bundle) then h
    else
      var launches := h.launches + [Launch(Command(filesDir), ChildEnvironment(inherited, filesDir))];
      match spawn
      case Spawned => Host(Some(h.nextPid), h.alive + {h.nextPid}, launches, h.nextPid + 1)
      case SpawnThrows => h.(launches := launches)
  }

  /** The child exits on its own; the handle keeps pointing at it. */
  function ChildExits(h: Host, pid: nat): (r: Host)
    requires Valid(h)
    ensures Valid(r)
    ensures pid !in r.alive && r.handle == h.handle && r.alive == h.alive - {pid}
    ensures r.launches == h.launches && r.nextPid == h.nextPid
  {
    h.(alive := h.alive - {pid})
  }

  /**
   * A child that exits on its own is never let go of: the handle keeps the dead child,
   * and a later stop, which only acts on a live one, leaves everything as it is.
   */
  lemma ExitedChildIsNeverCleared(h: Host, wait: WaitOutcome)
    requires Valid(h) && h.handle.Some? && h.handle.value in h.alive
    ensures var e := ChildExits(h, h.handle.value);
      && e.handle == h.handle && h.handle.value !in e.alive
      && StopNodeProcess(e, wait) == e
  {
  }

  /** How `waitFor()` after `destroy()` ends: the child is gone, or the wait is interrupted. */
  datatype WaitOutcome = Exited | Interrupted(survives: bool)

  /**
   * `stopNodeProcess`: nothing happens unless the handle holds a live child; then the child
   * is destroyed and waited for, and the handle is cleared even if the wait is interrupted.
   */
  function StopNodeProcess(h: Host, wait: WaitOutcome): (r: Host)
    requires Valid(h)
    ensures Valid(r)
    ensures h.handle.None? || h.handle.value !in h.alive ==> r == h
    ensures h.handle.Some? && h.handle.value in h.alive ==>
      && r.handle.None?
      && r.launches == h.launches && r.nextPid == h.nextPid
      && r.alive - {h.handle.value} == h.alive - {h.handle.value}
      && (h.handle.value in r.alive <==> wait == Interrupted(true))
  {
    match h.handle
    case None => h
    case Some(pid) =>
      if pid !in h.alive then h
      else if wait == Interrupted(true) then h.(handle := None)
      else h.(handle := None, alive := h.alive - {pid})
  }

  /** Stopping twice is stopping once: the first stop leaves no live handle behind. */
  lemma StopIdempotent(h: Host, first: WaitOutcome, second: WaitOutcome)
    requires Valid(h)
    ensures StopNodeProcess(StopNodeProcess(h, first), second) == StopNodeProcess(h, first)
  {
  }

  /**
   * Starting while a child runs leaks it: the handle moves to the new child, and a later
   * stop, however it ends, leaves the old one alive with nothing pointing at it.
   */
  lemma StartWhileRunningLeaksChild(h: Host, bundle: Option<Node>, filesDir: string, inherited: Environment, wait: WaitOutcome)
    requires Valid(h) && h.handle.Some? && h.handle.value in h.alive && CanLaunch(bundle)
    ensures var started := StartNodeProcess(h, bundle, filesDir, inherited, Spawned);
      var stopped := StopNodeProcess(started, wait);
      && h.handle.value in started.alive && started.handle != h.handle
      && h.handle.value in stopped.alive && stopped.handle.None?
  {
  }
}
