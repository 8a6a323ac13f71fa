/** The child-process manager of `processmanager.go`: it starts the
    configured command, sends it SIGHUP to reload, kills it on `Stop`, and
    reports an exit that nobody asked for on `errorCh`.

    The process is identified by a `Pid`; what the OS answers (whether the
    child starts, what `Wait` returns, whether a signal can be delivered) is a
    parameter of the call that asks. The waiting goroutine is the explicit
    event `ProcessExited`; signals sent and rate-limiter calls are recorded in
    `events`, values sent on `errorCh` in `errorCh` (a nil error is `None`). */
module ProcessManager {
  import opened Base
  import opened FileSystem
  import opened Materializer

  type Pid = nat

  /** `process.Signal(syscall.SIGHUP)` and `process.Kill()`. */
  datatype Signal = SIGHUP | SIGKILL

  /** What `cmd.Start()` reports. */
  datatype StartResult = Started(pid: Pid) | StartFailed(cause: Error)

  datatype Event =
    | RateLimitAccept                  // reloadRateLimiter.Accept()
    | Signalled(pid: Pid, signal: Signal)

  /** Number of kill signals in `events`. */
  function KillCount(events: seq<Event>): nat
  {
    if events == [] then 0
    else (if events[0].Signalled? && events[0].signal == SIGKILL then 1 else 0) + KillCount(events[1..])
  }

  lemma {:induction false} KillCountConcat(a: seq<Event>, b: seq<Event>)
    ensures KillCount(a + b) == KillCount(a) + KillCount(b)
  {
    if a == [] {
      assert a + b == b;
    } else {
      assert (a + b)[1..] == a[1..] + b;
      KillCountConcat(a[1..], b);
    }
  }

  /** A reload signal for the tracked process, if there is one. */
  function HangUp(process: Option<Pid>): seq<Event>
  {
    if process.Some? then [Signalled(process.value, SIGHUP)] else []
  }

  class ProcessManager {
    const command: string
    const args: seq<string>
    const layout: Layout              // configRoot with filepath.Join / filepath.Dir
    var process: Option<Pid>
    var stopping: bool
    var writtenFiles: set<Path>
    var errorCh: seq<Option<Error>>
    var events: seq<Event>

    /** The root is set, and the child is killed at most once, and only
        after stopping began. */
    ghost predicate Valid()
      reads this
    {
      && layout.root != ""
      && KillCount(events) <= (if stopping then 1 else 0)
    }

    constructor (command: string, args: seq<string>, layout: Layout)
      requires layout.root != ""
      ensures Valid()
      ensures this.command == command && this.args == args && this.layout == layout
      ensures process.None? && !stopping && writtenFiles == {} && errorCh == [] && events == []
    {
      this.command := command;
      this.args := args;
      this.layout := layout;
      process := None;
      stopping := false;
      writtenFiles := {};
      errorCh := [];
      events := [];
    }

    /** `newProcessManager`: an empty root is refused, then the root is
        created. */
    static method New(command: string, args: seq<string>, layout: Layout, fs: FileSystem)
      returns (pm: ProcessManager?, err: Option<Error>)
      ensures pm != null <==> err.None?
      ensures layout.root == "" ==> err == Some(RootNotSet)
      ensures layout.root != "" && layout.root in fs.faults.mkdir ==> err == Some(CannotCreateRoot(layout.root))
      ensures layout.root != "" && layout.root !in fs.faults.mkdir ==>
                && err.None? && fresh(pm) && pm.Valid()
                && pm.command == command && pm.args == args && pm.layout == layout
                && pm.process.None? && !pm.stopping && pm.writtenFiles == {} && pm.errorCh == [] && pm.events == []
    {
      if layout.root == "" {
        return null, Some(RootNotSet);
      }
      var ok := fs.MkdirAll(layout.root);
      if !ok {
        return null, Some(CannotCreateRoot(layout.root));
      }
      pm := new ProcessManager(command, args, layout);
      err := None;
    }

    /** `Start`: a child that fails to start is reported and nothing is
        recorded; a started child becomes the tracked process (and its
        waiting goroutine is what `ProcessExited` models). */
    method Start(started: StartResult) returns (err: Option<Error>)
      requires Valid()
      modifies this
      ensures Valid()
      ensures started.StartFailed? ==> err == Some(started.cause) && unchanged(this)
      ensures started.Started? ==>
                && err.None? && process == Some(started.pid)
                && stopping == old(stopping) && writtenFiles == old(writtenFiles)
                && errorCh == old(errorCh) && events == old(events)
    {
      if started.StartFailed? {
        return Some(started.cause);
      }
      process := Some(started.pid);
      return None;
    }

    /** The body of the waiting goroutine once `cmd.Wait()` returned
        `waitResult`: the result is published only if the manager is not
        stopping, and the process is no longer tracked either way. */
    method ProcessExited(waitResult: Option<Error>)
      requires Valid()
      modifies this
      ensures Valid()
      ensures process.None?
      ensures errorCh == old(errorCh) + (if old(stopping) then [] else [waitResult])
      ensures stopping == old(stopping) && writtenFiles == old(writtenFiles) && events == old(events)
    {
      if !stopping {
        errorCh := errorCh + [waitResult];
      }
      process := None;
    }

    /** `Stop`: the first call sets `stopping` and kills the tracked process
        if there is one (a kill error is only logged); later calls change
        nothing. */
    method Stop()
      requires Valid()
      modifies this
      ensures Valid() && stopping
      ensures old(stopping) ==> unchanged(this)
      ensures !old(stopping) ==>
                && process == old(process) && writtenFiles == old(writtenFiles) && errorCh == old(errorCh)
                && events == old(events) + (if process.Some? then [Signalled(process.value, SIGKILL)] else [])
    {
      if !stopping {
        stopping := true;
        if process.Some? {
          KillCountConcat(events, [Signalled(process.value, SIGKILL)]);
          events := events + [Signalled(process.value, SIGKILL)];
        }
      }
    }

    /** `reload`: with no tracked process it succeeds without signalling;
        otherwise it sends SIGHUP and returns what delivering it returned
        (`signalResult`). */
    method Reload(signalResult: Option<Error>) returns (err: Option<Error>)
      requires Valid()
      modifies this
      ensures Valid()
      ensures process.None? ==> unchanged(this) && err.None?
      ensures process.Some? ==>
                && events == old(events) + [Signalled(process.value, SIGHUP)] && err == signalResult
                && process == old(process) && stopping == old(stopping)
                && writtenFiles == old(writtenFiles) && errorCh == old(errorCh)
    {
      if process.Some? {
        KillCountConcat(events, HangUp(process));
        events := events + [Signalled(process.value, SIGHUP)];
        return signalResult;
      }
      return None;
    }

    /** `PopulateDirectoryFromConfigMap`: the same sync as the controller's
        update, ending in `reload` instead of a `Reloadable`. */
    method PopulateDirectoryFromConfigMap(fs: FileSystem, cm: ConfigMap, removeOrder: seq<Path>,
                                          keyOrder: seq<string>, signalResult: Option<Error>)
      returns (err: Option<Error>)
      requires Valid()
      requires IsEnumeration(removeOrder, writtenFiles) && IsEnumeration(keyOrder, cm.data.Keys)
      modifies this, fs
      ensures Valid()
      ensures old(stopping) ==> unchanged(this) && fs.files == old(fs.files) && err.None?
      ensures !old(stopping) ==>
                var r := Sync(fs.faults, layout, cm.data, old(fs.files), old(writtenFiles), removeOrder, keyOrder);
                && fs.files == r.files && writtenFiles == r.written
                && process == old(process) && stopping == old(stopping) && errorCh == old(errorCh)
                && events == old(events) + [RateLimitAccept] + (if r.failure.None? then HangUp(process) else [])
                && err == (if r.failure.Some? then r.failure else if process.Some? then signalResult else None)
    {
      if stopping {
        return None;
      }
      KillCountConcat(events, [RateLimitAccept]);
      events := events + [RateLimitAccept];
      var failure;
      writtenFiles, failure := SyncDirectory(fs, layout, cm.data, writtenFiles, removeOrder, keyOrder);
      if failure.Some? {
        return failure;
      }
      err := Reload(signalResult);
    }
  }

  /** A stop while the child runs, followed by its exit and a second stop:
      the child is killed once, its exit is not reported, and it is no longer
      tracked. */
  method StopWhileRunning(pm: ProcessManager, waitResult: Option<Error>)
    requires pm.Valid() && pm.process.Some? && !pm.stopping
    modifies pm
    ensures pm.Valid() && pm.stopping && pm.process.None?
    ensures pm.errorCh == old(pm.errorCh)
    ensures pm.events == old(pm.events) + [Signalled(old(pm.process).value, SIGKILL)]
  {
    pm.Stop();
    pm.ProcessExited(waitResult);
    pm.Stop();
  }
}
