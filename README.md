# k8s-config-controller, modelled in Dafny

This project models the core of a Kubernetes sidecar. The sidecar watches one
ConfigMap, writes each entry of its `Data` as a file under a configuration
root directory, and then tells the workload to reload. Two parts do the
reloading:

- the controller (`controller.go`) calls a `Reloadable`;
- the process manager (`processmanager.go`) sends SIGHUP to a child process
  it supervises.

A third part, `parseQualifiedResourceName` (`utils.go`), splits the
`namespace/name` command-line argument.

Layout:

- `base.dfy` (module `Base`): bytes, paths, `Option`/`Result`, the error
  values, and "an iteration order of a Go map" (`IsEnumeration`: each element
  exactly once).
- `filesystem.dfy` (module `FileSystem`): the OS file system as a class with a
  `files: map<Path, Bytes>` field. A fault model (`Faults`) names the paths
  whose `Remove`, `MkdirAll` or `WriteFile` fails with an error other than
  "not exist". `filepath.Join` and `filepath.Dir` are function-valued fields of
  `PathOps`, and they are never assumed injective.
- `materializer.dfy` (module `Materializer`): the directory sync shared by both
  files (processmanager.go:100-120 repeats controller.go:125-145). The spec is
  `Sync`, two left folds (`RemovePass`, `WritePass`) over caller-supplied
  iteration orders of `writtenFiles` and `cm.Data`.
  `SyncDirectory` runs the two loops against a `FileSystem` and is proved
  equal to `Sync`. The `Sync*` lemmas say what a sync achieves, for every
  iteration order.
- `controller.dfy` (module `Controller`): class `Controller`, with fields
  `writtenFiles`, `stopping`, `stopCh` (as `stopChClosed`) and a log of the
  calls it makes to the rate limiter and the reloadable.
- `processmanager.dfy` (module `ProcessManager`): class `ProcessManager`, with
  fields `process`, `stopping`, `writtenFiles` and `errorCh` (the values sent
  on it) and a log of rate-limiter calls and signals sent. The waiting goroutine is the explicit
  method `ProcessExited`.
- `utils.dfy` (module `QualifiedName`): `strings.Split` on `/`, its inverse
  `JoinParts`, and the parser.

Collaborators are parameters of the call that uses them:

- the result of `Reload` (controller) and of delivering SIGHUP (process
  manager);
- the result of `cmd.Start` and of `cmd.Wait`;
- the fetched ConfigMap;
- the iteration orders of the Go maps.

The mutex is modelled by running each call to completion before the next one
starts.

Behaviour of the code that the model keeps:

- `writtenFiles` is never reset: the code only adds to it, in place, even on a
  failed call (controller.go:144, processmanager.go:119). A path written for an
  earlier ConfigMap therefore stays in the set, and each later sync tries to
  remove it again and logs "unexpectedly does not exist". `SyncTwice` proves
  this: the first data's targets are still in the set after a second sync.
- A successful sync leaves exactly the target files if every file in the
  directory is recorded in `writtenFiles` (`SyncMatchesSnapshot`). In general
  (`SyncSuccess`) the directory is the untracked files plus the targets, so it
  equals the target set exactly when every untracked file is itself a target.
- `Start` has no state check (processmanager.go:49-75): it simply replaces the
  tracked process.
- `Stop` logs "Sending SIGTERM", but `Process.Kill` sends SIGKILL
  (processmanager.go:82-83). The model records SIGKILL.
- Two ConfigMap keys that `filepath.Join` maps to the same path write the same
  file. Its final content is the data of the key visited last
  (`LastWriter`). It equals the key's own data when no other key shares the
  path (`SyncWritesEveryEntry`).

## Model

| member | source | states |
|---|---|---|
| FileSystem.FileSystem.Remove | controller.go:126-132 | `os.Remove`: fails with a non-"not exist" error exactly on a faulty path; reports "not exist" exactly for an absent path that is not faulty; otherwise the path is gone |
| FileSystem.FileSystem.MkdirAll | controller.go:138-140 | `os.MkdirAll` succeeds exactly when the directory is not faulty, and creates no file |
| FileSystem.FileSystem.WriteFile | controller.go:141-143 | `ioutil.WriteFile` fails exactly on a faulty path and leaves the files alone; otherwise the path holds exactly the data |
| Materializer.RemoveObsolete | controller.go:125-133 | the removal loop equals `RemovePass`: files, and the first "Could not delete" error, for the given iteration order |
| Materializer.WriteEntries | controller.go:135-145 | the writing loop equals `WritePass`: files, the grown written set, and the first mkdir or write error, for the given key order |
| Materializer.SyncDirectory | controller.go:125-145 | the two loops are equal to `Sync`: the directory, the grown written set and the first error returned are all those of the spec, for the given iteration orders |
| Materializer.RemovePass | controller.go:125-133 | the removal loop as a fold over the iteration order: it never changes the written set, keeps an earlier error, and only deletes files (a remaining file keeps its content); its closed form is `RemovePassEffect` |
| Materializer.WritePass | controller.go:135-145 | the writing loop as a fold over the key order: the written set only grows, an earlier error is kept, no file disappears, and every newly recorded path exists; its closed form is `WritePassEffect` |
| Materializer.Sync | controller.go:125-145 | the removal loop followed by the writing loop (the same loops as processmanager.go:100-120): the written set only grows and every newly recorded path exists; the `Sync*` lemmas state the rest |
| Materializer.RemovePassEffect | controller.go:125-133 | the removal loop deletes exactly the longest removable prefix of the order; a missing file is no error; it stops with "Could not delete" for the first path that fails; the written set is untouched |
| Materializer.WritePassEffect | controller.go:135-145 | the writing loop writes exactly the longest writable prefix of the keys; those paths join the written set and hold their last writer's data; it stops at the first mkdir or write failure, with mkdir checked first; other files keep their content |
| Materializer.SyncSucceedsIff | controller.go:125-145 | a sync succeeds if and only if no tracked path fails to be removed and every entry's parent directory and file can be created |
| Materializer.SyncSuccess | controller.go:125-145 | after success: written set = old set ∪ all targets; directory = (old files − tracked paths) ∪ targets; each target holds the data of the last key mapped to it; untracked non-target files unchanged |
| Materializer.SyncWritesEveryEntry | controller.go:135-145 | after success the file at `Join(root, k)` exists for every key `k`, and holds exactly `Data[k]` when no other key joins to that path |
| Materializer.SyncRemovesStale | controller.go:125-133 | after success no previously tracked path that is not a target of the new data exists |
| Materializer.SyncWrittenGrows | controller.go:125-145 | whether the call succeeds or fails, the written set only grows, stays within old ∪ targets, is unchanged after a removal error, and otherwise equals old ∪ the targets actually written before the first failure |
| Materializer.SyncRemoveFailure | controller.go:126-131 | a removal error aborts before any write: the error names the first failing tracked path, the written set is unchanged, and only the paths before it were deleted |
| Materializer.SyncWriteFailure | controller.go:138-143 | a mkdir or write error aborts the sync: all tracked paths were removed, the error names the first unwritable entry, and only the entries before it were written and recorded |
| Materializer.SyncFrame | controller.go:125-145 | a path that is neither tracked nor a target keeps its presence and content, whatever the outcome |
| Materializer.SyncMatchesSnapshot | controller.go:125-145 | if every existing file was tracked, a successful sync leaves exactly the target paths of the new data |
| Materializer.SyncTwice | controller.go:125-145 | after two successful syncs no target of the first data that is not a target of the second remains, yet the written set still holds all first targets |
| Controller.IsRelevantUpdate | controller.go:69-72 | the `UpdateFunc` filter: the objects differ structurally and the new one has the watched namespace and name; its effect is stated by `Controller.Controller.OnUpdate` |
| Controller.UpdateError | controller.go:125-151 | what `updateFromConfigMap` returns after the stopping check: nil exactly when the sync and the reload both succeeded; a sync error takes precedence and is returned as is; otherwise the reload error wrapped as "Unable to reload" |
| Controller.Controller.New | controller.go:41-65 | an empty root yields "root directory must be set"; then root creation, fetch and initial update errors in that order yield no controller; success yields a fresh valid, non-stopping controller whose files and written set are those of the initial sync |
| Controller.Controller.CloseStopCh | controller.go:101 | closing `stopCh` requires it to be open (a second close panics in Go) |
| Controller.Controller.Stop | controller.go:95-107 | always returns nil; the first call sets `stopping`, closes `stopCh` exactly once and stops the reloadable only if it is stoppable; a later call changes nothing |
| Controller.Controller.UpdateFromConfigMap | controller.go:115-152 | when stopping: returns nil, no Accept, no file change, no Reload; otherwise one Accept, the whole effect of `Sync`, then exactly one Reload only if the sync succeeded; returns the sync error, else the wrapped reload error, else nil |
| Controller.Controller.OnUpdate | controller.go:67-79 | an update that is structurally equal or for another namespace or name changes nothing; a relevant one has exactly the effect of `UpdateFromConfigMap` |
| ProcessManager.ProcessManager.New | processmanager.go:34-47 | an empty root yields "root directory must be set"; a root that cannot be created is an error; otherwise a fresh manager with no process, not stopping, nothing written or published |
| ProcessManager.ProcessManager.Start | processmanager.go:49-75 | a failed start returns the error and changes nothing; a successful start tracks the new process and returns nil |
| ProcessManager.ProcessManager.ProcessExited | processmanager.go:62-73 | the wait result (possibly nil) is appended to `errorCh` if and only if not stopping; the process is untracked afterwards |
| ProcessManager.ProcessManager.Stop | processmanager.go:78-88 | the first call sets `stopping` and sends SIGKILL only to a tracked process; later calls change nothing; at most one kill is ever sent |
| ProcessManager.ProcessManager.Reload | processmanager.go:125-131 | with no tracked process: nil and no signal; with one: exactly one SIGHUP to it, returning the delivery result |
| ProcessManager.ProcessManager.PopulateDirectoryFromConfigMap | processmanager.go:90-123 | when stopping: nil, no effect; otherwise one Accept and the whole effect of `Sync`; on a sync error it returns that error with no signal; on success it returns the result of `reload` |
| ProcessManager.StopWhileRunning | processmanager.go:62-88 | stop, exit, stop again on a running child: one SIGKILL, nothing published on `errorCh`, process untracked |
| QualifiedName.Split | utils.go:9 | `strings.Split(s, "/")` always yields at least one piece; its other properties are `JoinSplit`, `SplitJoin` and `SplitLength` |
| QualifiedName.JoinSplit | utils.go:9 | joining the pieces of `strings.Split(s, "/")` with `/` gives back `s` |
| QualifiedName.SplitJoin | utils.go:9 | splitting a `/`-join of one or more slash-free pieces gives back the pieces |
| QualifiedName.SplitLength | utils.go:9 | `strings.Split` yields one more piece than there are `/` |
| QualifiedName.ParseQualifiedResourceName | utils.go:8-17 | on success neither the namespace nor the name contains `/`; on error both are empty; the exact cases are the `Parse*` lemmas below |
| QualifiedName.ParseSucceedsIff | utils.go:8-17 | parsing returns no error if and only if the input has at most one `/` |
| QualifiedName.ParseUnqualified | utils.go:10-12 | input without `/` yields `("default", input, nil)` |
| QualifiedName.ParseQualified | utils.go:13-16 | input with exactly one `/`, at index i, yields `(input[..i], input[i+1..], nil)` |
| QualifiedName.ParseOverqualified | utils.go:13-15 | two or more `/` yield `("", "", error)` |
| QualifiedName.ParseComponents | utils.go:8-17 | on success neither component contains `/`, and a qualified input equals `namespace + "/" + name` |
| QualifiedName.ParseRoundTrip | utils.go:8-17 | for slash-free `ns` and `name`, `ns/name` parses to `(ns, name)` and `name` to `("default", name)` |
| QualifiedName.ParseEmptyComponents | utils.go:8-17 | no emptiness checks: `""` gives `("default", "", nil)` and `"/"` gives `("", "", nil)` |

## Left out

- Rate limiter (`NewTokenBucketRateLimiter(0.1, 1)`): its timing and float rate are not modelled. Only the `Accept` call is recorded, made before any file work when not stopping.
- Informer, list/watch, resync period, `reflect.DeepEqual`: the update filter is modelled over a ConfigMap record with value equality. `resourceVersion` stands for the metadata that DeepEqual also compares.
- `controller.Run` and channel blocking: `Run` starts the informer on a goroutine and then waits on `stopCh` (controller.go:110-111); neither is modelled. The send on the unbuffered `errorCh` blocks until `main` receives it and exits. `errorCh` is modelled as the sequence of values sent.
- Concurrency: the mutex, the goroutines, and the unsynchronised reads of `stopping` and writes of `process` by the waiting goroutine. Each call runs to completion; the goroutine body is the explicit event `ProcessExited`.
- ProcessManager.ProcessExited: an exit is not tied to a particular `Start`. As in the code, it untracks whatever process is tracked at that moment.
- FileSystem.WriteFile: a failed write leaves the files unchanged. A real `WriteFile` may already have created or truncated the file and written part of the data, so after a write error the failing target may exist; `SyncWriteFailure` and `WritePassEffect` do not reflect this.
- Directories: `MkdirAll` is reduced to a fault check, with no directory tree and no 0666 permissions. `filepath.Join` and `filepath.Dir` are abstract functions.
- Content is modelled as bytes directly; the `[]byte(data)` conversion of Go strings is not modelled.
- The underlying OS error inside "Could not delete / create / write" is not carried; only the path is.
- Logging (`glog`), `exec.Command` and the inherited stdout/stderr: `command` and `args` are only stored.
- `main.go` (flags, client construction, SIGTERM handling, the fatal `errorCh` consumer) is not part of this model. It passes a `processManager` field that `controllerOptions` does not have.
- `httpendpoint.go` is not part of this model; for the controller it is just a `Reloadable` whose `Reload` result is a parameter.
- `interfaces.go` is not part of this model: `Reloadable` is the per-call reload result, and `Stoppable` is the flag `Reloadable.stoppable`. `processManager` satisfies neither interface (its `Stop` has no result and its `reload` is unexported), so no bridge between the two classes is modelled.
