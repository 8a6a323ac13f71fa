/** The controller of `controller.go`: it syncs the configuration directory
    from one named ConfigMap and tells the configured `Reloadable` to reload.

    The mutex is modelled by running each call to completion before the next
    starts; the rate limiter's `Accept` and the reloadable's `Reload` and
    `Stop` calls are recorded in `events`, and the error each `Reload` call
    returns is a parameter of the call that may make it. */
module Controller {
  import opened Base
  import opened FileSystem
  import opened Materializer

  /** The configured `Reloadable`; `stoppable` says whether it also
      implements `Stoppable`. */
  datatype Reloadable = Reloadable(stoppable: bool)

  /** Calls the controller makes on its collaborators. */
  datatype Event =
    | RateLimitAccept   // reloadRateLimiter.Accept()
    | Reload            // reloadable.Reload()
    | ReloadableStop    // reloadable.(Stoppable).Stop()

  /** The filter of the informer's `UpdateFunc`: the objects differ
      structurally and the new one is the watched ConfigMap. */
  predicate IsRelevantUpdate(previous: ConfigMap, current: ConfigMap, namespace: string, name: string)
  {
    previous != current && current.namespace == namespace && current.name == name
  }

  /** What `updateFromConfigMap` returns once it got past the stopping check:
      the sync error, else the wrapped reload error, else nil. */
  function UpdateError(failure: Option<Error>, reloadResult: Option<Error>): (r: Option<Error>)
    ensures r.None? <==> failure.None? && reloadResult.None?
    ensures failure.Some? ==> r == failure
    ensures failure.None? && reloadResult.Some? ==> r == Some(ReloadFailed(reloadResult.value))
  {
    if failure.Some? then failure
    else if reloadResult.Some? then Some(ReloadFailed(reloadResult.value))
    else None
  }

  class Controller {
    const layout: Layout              // configRootDir with filepath.Join / filepath.Dir
    const configMapName: string
    const namespace: string
    const reloadable: Reloadable
    var writtenFiles: set<Path>
    var stopping: bool
    var stopChClosed: bool
    var events: seq<Event>

    /** The root is set, `stopCh` is closed exactly when stopping, and a
        stoppable reloadable has been stopped once if stopping and never
        otherwise. */
    ghost predicate Valid()
      reads this
    {
      && layout.root != ""
      && stopChClosed == stopping
      && Count(events, ReloadableStop) == (if stopping && reloadable.stoppable then 1 else 0)
    }

    constructor (layout: Layout, configMapName: string, namespace: string, reloadable: Reloadable)
      requires layout.root != ""
      ensures Valid()
      ensures this.layout == layout && this.configMapName == configMapName
      ensures this.namespace == namespace && this.reloadable == reloadable
      ensures writtenFiles == {} && !stopping && events == []
    {
      this.layout := layout;
      this.configMapName := configMapName;
      this.namespace := namespace;
      this.reloadable := reloadable;
      writtenFiles := {};
      stopping := false;
      stopChClosed := false;
      events := [];
    }

    /** `newController` up to the informer set-up: an empty root is refused,
        the root is created, the ConfigMap is fetched (`fetched`, with
        `keyOrder` the iteration order of its data) and an initial update
        populates the directory. Any failure yields no controller. */
    static method New(layout: Layout, configMapName: string, namespace: string, reloadable: Reloadable,
                      fs: FileSystem, fetched: Result<ConfigMap>, keyOrder: seq<string>,
                      reloadResult: Option<Error>)
      returns (ctl: Controller?, err: Option<Error>)
      requires fetched.Ok? ==> IsEnumeration(keyOrder, fetched.value.data.Keys)
      modifies fs
      ensures ctl != null <==> err.None?
      ensures layout.root == "" ==> err == Some(RootNotSet) && fs.files == old(fs.files)
      ensures layout.root != "" && layout.root in fs.faults.mkdir ==>
                err == Some(CannotCreateRoot(layout.root)) && fs.files == old(fs.files)
      ensures layout.root != "" && layout.root !in fs.faults.mkdir && fetched.Err? ==>
                err == Some(CannotGetConfigMap(namespace, configMapName, fetched.error)) && fs.files == old(fs.files)
      ensures layout.root != "" && layout.root !in fs.faults.mkdir && fetched.Ok? ==>
                var r := Sync(fs.faults, layout, fetched.value.data, old(fs.files), {}, [], keyOrder);
                && fs.files == r.files
                && (err.None? <==> UpdateError(r.failure, reloadResult).None?)
                && (err.Some? ==> err == Some(PopulateFailed(UpdateError(r.failure, reloadResult).value)))
                && (ctl != null ==>
                      && fresh(ctl) && ctl.Valid() && !ctl.stopping
                      && ctl.layout == layout && ctl.configMapName == configMapName
                      && ctl.namespace == namespace && ctl.reloadable == reloadable
                      && ctl.writtenFiles == r.written && ctl.events == [RateLimitAccept, Reload])
    {
      if layout.root == "" {
        return null, Some(RootNotSet);
      }
      var ok := fs.MkdirAll(layout.root);
      if !ok {
        return null, Some(CannotCreateRoot(layout.root));
      }
      var c := new Controller(layout, configMapName, namespace, reloadable);
      if fetched.Err? {
        return null, Some(CannotGetConfigMap(namespace, configMapName, fetched.error));
      }
      var e := c.UpdateFromConfigMap(fs, fetched.value, [], keyOrder, reloadResult);
      if e.Some? {
        return null, Some(PopulateFailed(e.value));
      }
      ctl, err := c, None;
    }

    /** Closing a Go channel twice panics. */
    method CloseStopCh()
      requires !stopChClosed
      modifies this`stopChClosed
      ensures stopChClosed
    {
      stopChClosed := true;
    }

    /** `Stop`: a one-shot latch. The first call sets `stopping`, closes
        `stopCh` and stops a stoppable reloadable (its error is ignored);
        later calls change nothing. It always returns nil. */
    method Stop() returns (err: Option<Error>)
      requires Valid()
      modifies this
      ensures Valid() && stopping && err.None?
      ensures old(stopping) ==> unchanged(this)
      ensures !old(stopping) ==> writtenFiles == old(writtenFiles)
      ensures !old(stopping) ==> events == old(events) + (if reloadable.stoppable then [ReloadableStop] else [])
    {
      if stopping {
        return None;
      }
      stopping := true;
      CloseStopCh();
      if reloadable.stoppable {
        CountConcat(events, [ReloadableStop], ReloadableStop);
        events := events + [ReloadableStop];
      }
      return None;
    }

    /** `updateFromConfigMap`. While stopping it returns nil and does
        nothing. Otherwise it passes the rate limiter, syncs the directory
        (`removeOrder` and `keyOrder` are the iteration orders of
        `writtenFiles` and of the data) and, only if the sync succeeded,
        calls `Reload` once, whose error (`reloadResult`) it returns wrapped. */
    method UpdateFromConfigMap(fs: FileSystem, cm: ConfigMap, removeOrder: seq<Path>, keyOrder: seq<string>,
                               reloadResult: Option<Error>)
      returns (err: Option<Error>)
      requires Valid()
      requires IsEnumeration(removeOrder, writtenFiles) && IsEnumeration(keyOrder, cm.data.Keys)
      modifies this, fs
      ensures Valid() && stopping == old(stopping)
      ensures old(stopping) ==> unchanged(this) && fs.files == old(fs.files) && err.None?
      ensures !old(stopping) ==>
                var r := Sync(fs.faults, layout, cm.data, old(fs.files), old(writtenFiles), removeOrder, keyOrder);
                && fs.files == r.files && writtenFiles == r.written
                && events == old(events) + [RateLimitAccept] + (if r.failure.None? then [Reload] else [])
                && err == UpdateError(r.failure, reloadResult)
    {
      if stopping {
        return None;
      }
      ghost var before := events;
      events := events + [RateLimitAccept];
      var failure;
      writtenFiles, failure := SyncDirectory(fs, layout, cm.data, writtenFiles, removeOrder, keyOrder);
      if failure.Some? {
        CountConcat(before, [RateLimitAccept], ReloadableStop);
        return failure;
      }
      events := events + [Reload];
      CountConcat(before, [RateLimitAccept], ReloadableStop);
      CountConcat(before + [RateLimitAccept], [Reload], ReloadableStop);
      if reloadResult.Some? {
        return Some(ReloadFailed(reloadResult.value));
      }
      return None;
    }

    /** The informer's `UpdateFunc`: only a relevant update reaches
        `updateFromConfigMap`, whose error is logged. */
    method OnUpdate(fs: FileSystem, previous: ConfigMap, current: ConfigMap,
                    removeOrder: seq<Path>, keyOrder: seq<string>, reloadResult: Option<Error>)
      requires Valid()
      requires IsEnumeration(removeOrder, writtenFiles) && IsEnumeration(keyOrder, current.data.Keys)
      modifies this, fs
      ensures Valid() && stopping == old(stopping)
      ensures !IsRelevantUpdate(previous, current, namespace, configMapName) || old(stopping) ==>
                unchanged(this) && fs.files == old(fs.files)
      ensures IsRelevantUpdate(previous, current, namespace, configMapName) && !old(stopping) ==>
                var r := Sync(fs.faults, layout, current.data, old(fs.files), old(writtenFiles), removeOrder, keyOrder);
                && fs.files == r.files && writtenFiles == r.written
                && events == old(events) + [RateLimitAccept] + (if r.failure.None? then [Reload] else [])
    {
      if IsRelevantUpdate(previous, current, namespace, configMapName) {
        var _ := UpdateFromConfigMap(fs, current, removeOrder, keyOrder, reloadResult);
      }
    }
  }
}
