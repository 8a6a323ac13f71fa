/** The directory synchronisation shared by the controller's
    `updateFromConfigMap` and the process manager's
    `PopulateDirectoryFromConfigMap`: delete every previously written file
    (a file that is already gone is only a warning), then write every entry of
    the ConfigMap under the root directory, recording each path written.

    The specification is a pair of left folds over the two iteration orders
    (`RemovePass`, `WritePass`), combined in `Sync`; `SyncDirectory` runs the
    two loops against a `FileSystem` object and is proved equal to `Sync`. The
    lemmas below state what a sync achieves in terms of the inputs alone. */
module Materializer {
  import opened Base
  import opened FileSystem

  /** The parts of an `api.ConfigMap` the core reads. `resourceVersion`
      stands for the rest of the object's metadata, which the informer's
      structural comparison also sees. */
  datatype ConfigMap = ConfigMap(namespace: string, name: string, resourceVersion: string,
                                 data: map<string, Bytes>)

  /** The configured root directory and the path operations used under it. */
  datatype Layout = Layout(root: Path, paths: PathOps) {
    /** `filepath.Join(root, key)`: where the entry `key` is written. */
    function Target(key: string): Path
    {
      paths.join(root, key)
    }
  }

  /** Paths the entries of `data` are written to. */
  function Targets(layout: Layout, data: map<string, Bytes>): set<Path>
  {
    set k | k in data :: layout.Target(k)
  }

  /** Paths the keys of `keys` are written to. */
  function KeyTargets(layout: Layout, keys: seq<string>): set<Path>
  {
    set k | k in keys :: layout.Target(k)
  }

  /** Both the parent directory and the file of `key` can be created. */
  predicate Writable(faults: Faults, layout: Layout, key: string)
  {
    layout.paths.dir(layout.Target(key)) !in faults.mkdir && layout.Target(key) !in faults.write
  }

  /** The error for an entry that cannot be written: parent creation is tried first. */
  function WriteFailure(faults: Faults, layout: Layout, key: string): Error
  {
    var p := layout.Target(key);
    if layout.paths.dir(p) in faults.mkdir then CannotCreateParent(p) else CannotWrite(p)
  }

  /** Directory contents, the `writtenFiles` set, and the first error met. */
  datatype SyncState = SyncState(files: map<Path, Bytes>, written: set<Path>, failure: Option<Error>)

  /** One iteration of the removal loop; after an error nothing more happens. */
  function RemoveStep(faults: Faults, s: SyncState, p: Path): SyncState
  {
    if s.failure.Some? then s
    else if p in faults.remove then s.(failure := Some(CannotDelete(p)))
    else s.(files := s.files - {p})
  }

  /** The removal loop run over `order`. */
  function RemovePass(faults: Faults, s: SyncState, order: seq<Path>): (r: SyncState)
    ensures r.written == s.written
    ensures s.failure.Some? ==> r == s
    ensures forall p :: p in r.files ==> p in s.files && r.files[p] == s.files[p]
    decreases |order|
  {
    if order == [] then s
    else RemoveStep(faults, RemovePass(faults, s, order[..|order| - 1]), order[|order| - 1])
  }

  /** One iteration of the writing loop; after an error nothing more happens. */
  function WriteStep(faults: Faults, layout: Layout, data: map<string, Bytes>, s: SyncState, key: string): SyncState
    requires key in data
  {
    if s.failure.Some? then s
    else if !Writable(faults, layout, key) then s.(failure := Some(WriteFailure(faults, layout, key)))
    else
      var p := layout.Target(key);
      s.(files := s.files[p := data[key]], written := s.written + {p})
  }

  /** The writing loop run over `keys`. */
  function WritePass(faults: Faults, layout: Layout, data: map<string, Bytes>, s: SyncState, keys: seq<string>): (r: SyncState)
    requires forall k :: k in keys ==> k in data
    ensures s.written <= r.written
    ensures s.failure.Some? ==> r == s
    ensures forall p :: p in s.files ==> p in r.files
    ensures forall p :: p in r.written && p !in s.written ==> p in r.files
    decreases |keys|
  {
    if keys == [] then s
    else WriteStep(faults, layout, data, WritePass(faults, layout, data, s, keys[..|keys| - 1]), keys[|keys| - 1])
  }

  /** A whole sync: `removeOrder` is the iteration order of `writtenFiles`,
      `keyOrder` that of the ConfigMap's data. */
  function Sync(faults: Faults, layout: Layout, data: map<string, Bytes>, files: map<Path, Bytes>,
                written: set<Path>, removeOrder: seq<Path>, keyOrder: seq<string>): (r: SyncState)
    requires forall k :: k in keyOrder ==> k in data
    ensures written <= r.written
    ensures forall p :: p in r.written && p !in written ==> p in r.files
  {
    WritePass(faults, layout, data, RemovePass(faults, SyncState(files, written, None), removeOrder), keyOrder)
  }

  /** Length of the longest prefix of `order` whose paths can all be removed. */
  function RemovablePrefix(faults: Faults, order: seq<Path>): (n: nat)
    ensures n <= |order|
    ensures forall i :: 0 <= i < n ==> order[i] !in faults.remove
    ensures n < |order| ==> order[n] in faults.remove
    decreases |order|
  {
    if order == [] then 0
    else
      var m := RemovablePrefix(faults, order[..|order| - 1]);
      if m == |order| - 1 && order[|order| - 1] !in faults.remove then |order| else m
  }

  /** Length of the longest prefix of `keys` whose entries can all be written. */
  function WritablePrefix(faults: Faults, layout: Layout, keys: seq<string>): (n: nat)
    ensures n <= |keys|
    ensures forall i :: 0 <= i < n ==> Writable(faults, layout, keys[i])
    ensures n < |keys| ==> !Writable(faults, layout, keys[n])
    decreases |keys|
  {
    if keys == [] then 0
    else
      var m := WritablePrefix(faults, layout, keys[..|keys| - 1]);
      if m == |keys| - 1 && Writable(faults, layout, keys[|keys| - 1]) then |keys| else m
  }

  /** The last key of `keys` that is written to `p`: its data is what `p`
      holds once all of `keys` have been written. */
  function LastWriter(layout: Layout, keys: seq<string>, p: Path): (k: string)
    requires p in KeyTargets(layout, keys)
    ensures k in keys && layout.Target(k) == p
    decreases |keys|
  {
    var last := keys[|keys| - 1];
    if layout.Target(last) == p then last
    else
      assert keys == keys[..|keys| - 1] + [last];
      LastWriter(layout, keys[..|keys| - 1], p)
  }

  // ---------------------------------------------------------------------------
  // The two passes

  lemma {:induction false} ElemsSnoc<T>(s: seq<T>)
    requires s != []
    ensures Elems(s) == Elems(s[..|s| - 1]) + {s[|s| - 1]}
  {
  }

  lemma {:induction false} KeyTargetsSnoc(layout: Layout, keys: seq<string>)
    requires keys != []
    ensures KeyTargets(layout, keys) == KeyTargets(layout, keys[..|keys| - 1]) + {layout.Target(keys[|keys| - 1])}
  {
  }

  /** The removal pass deletes exactly the removable prefix of its order and
      stops at the first path whose removal fails. */
  lemma {:induction false} RemovePassEffect(faults: Faults, s: SyncState, order: seq<Path>)
    requires s.failure.None?
    ensures var r := RemovePass(faults, s, order);
            var n := RemovablePrefix(faults, order);
            && r.written == s.written
            && r.files == s.files - Elems(order[..n])
            && r.failure == (if n < |order| then Some(CannotDelete(order[n])) else None)
    decreases |order|
  {
    if order == [] {
      assert order[..0] == [];
    } else {
      var init, last := order[..|order| - 1], order[|order| - 1];
      RemovePassEffect(faults, s, init);
      var m := RemovablePrefix(faults, init);
      if m < |init| {
        assert order[..m] == init[..m];
      } else if last in faults.remove {
        assert order[..m] == init;
      } else {
        assert order[..|order|] == order && init[..m] == init;
        ElemsSnoc(order);
      }
    }
  }

  /** The writing pass writes exactly the writable prefix of its keys: those
      paths join the written set and hold the data of their last writer, and
      it stops at the first entry that cannot be written. */
  lemma {:induction false} WritePassEffect(faults: Faults, layout: Layout, data: map<string, Bytes>,
                                           t: SyncState, keys: seq<string>)
    requires t.failure.None?
    requires forall k :: k in keys ==> k in data
    ensures var r := WritePass(faults, layout, data, t, keys);
            var n := WritablePrefix(faults, layout, keys);
            var done := KeyTargets(layout, keys[..n]);
            && r.written == t.written + done
            && r.failure == (if n < |keys| then Some(WriteFailure(faults, layout, keys[n])) else None)
            && r.files.Keys == t.files.Keys + done
            && (forall p :: p in done ==> r.files[p] == data[LastWriter(layout, keys[..n], p)])
            && (forall p :: p in t.files && p !in done ==> r.files[p] == t.files[p])
    decreases |keys|
  {
    if keys == [] {
      assert keys[..0] == [];
    } else {
      var init, last := keys[..|keys| - 1], keys[|keys| - 1];
      WritePassEffect(faults, layout, data, t, init);
      var m := WritablePrefix(faults, layout, init);
      if m < |init| {
        assert keys[..m] == init[..m];
      } else if !Writable(faults, layout, last) {
        assert keys[..m] == init && init[..m] == init;
      } else {
        assert keys[..|keys|] == keys && init[..m] == init;
        KeyTargetsSnoc(layout, keys);
        LastWriterSnoc(layout, data, keys, WritePass(faults, layout, data, t, init).files);
      }
    }
  }

  /** Writing the last key's data on top of the files written for the earlier
      keys leaves every target holding its last writer's data. */
  lemma LastWriterSnoc(layout: Layout, data: map<string, Bytes>, keys: seq<string>, before: map<Path, Bytes>)
    requires keys != [] && forall k :: k in keys ==> k in data
    requires KeyTargets(layout, keys) == KeyTargets(layout, keys[..|keys| - 1]) + {layout.Target(keys[|keys| - 1])}
    requires forall p :: p in KeyTargets(layout, keys[..|keys| - 1]) ==>
               p in before && before[p] == data[LastWriter(layout, keys[..|keys| - 1], p)]
    ensures var after := before[layout.Target(keys[|keys| - 1]) := data[keys[|keys| - 1]]];
            forall p :: p in KeyTargets(layout, keys) ==> after[p] == data[LastWriter(layout, keys, p)]
  {
    var init, last := keys[..|keys| - 1], keys[|keys| - 1];
    var after := before[layout.Target(last) := data[last]];
    forall p | p in KeyTargets(layout, keys)
      ensures after[p] == data[LastWriter(layout, keys, p)]
    {
      if p != layout.Target(last) {
        assert LastWriter(layout, keys, p) == LastWriter(layout, init, p);
      }
    }
  }

  lemma {:induction false} RemovePrefixFailed(faults: Faults, s: SyncState, order: seq<Path>, i: nat)
    requires i <= |order| && RemovePass(faults, s, order[..i]).failure.Some?
    ensures RemovePass(faults, s, order) == RemovePass(faults, s, order[..i])
    decreases |order| - i
  {
    if i < |order| {
      var init := order[..|order| - 1];
      assert init[..i] == order[..i];
      RemovePrefixFailed(faults, s, init, i);
    } else {
      assert order[..i] == order;
    }
  }

  lemma {:induction false} WritePrefixFailed(faults: Faults, layout: Layout, data: map<string, Bytes>,
                                             s: SyncState, keys: seq<string>, i: nat)
    requires forall k :: k in keys ==> k in data
    requires i <= |keys| && WritePass(faults, layout, data, s, keys[..i]).failure.Some?
    ensures WritePass(faults, layout, data, s, keys) == WritePass(faults, layout, data, s, keys[..i])
    decreases |keys| - i
  {
    if i < |keys| {
      var init := keys[..|keys| - 1];
      assert init[..i] == keys[..i];
      WritePrefixFailed(faults, layout, data, s, init, i);
    } else {
      assert keys[..i] == keys;
    }
  }

  lemma {:induction false} KeyTargetsPrefix(layout: Layout, keys: seq<string>, n: nat)
    requires n <= |keys|
    ensures KeyTargets(layout, keys[..n]) <= KeyTargets(layout, keys)
  {
  }

  lemma EnumerationTargets(layout: Layout, data: map<string, Bytes>, keyOrder: seq<string>)
    requires IsEnumeration(keyOrder, data.Keys)
    ensures KeyTargets(layout, keyOrder) == Targets(layout, data)
  {
  }

  // ---------------------------------------------------------------------------
  // What a sync achieves

  /** A sync succeeds exactly when no tracked path fails to be removed and
      every entry of the data can be written. */
  lemma SyncSucceedsIff(faults: Faults, layout: Layout, data: map<string, Bytes>, files: map<Path, Bytes>,
                        written: set<Path>, removeOrder: seq<Path>, keyOrder: seq<string>)
    requires IsEnumeration(removeOrder, written) && IsEnumeration(keyOrder, data.Keys)
    ensures Sync(faults, layout, data, files, written, removeOrder, keyOrder).failure.None?
            <==> (forall p :: p in written ==> p !in faults.remove)
                 && (forall k :: k in data ==> Writable(faults, layout, k))
  {
    var s := SyncState(files, written, None);
    RemovePassEffect(faults, s, removeOrder);
    var removed := RemovePass(faults, s, removeOrder);
    var n := RemovablePrefix(faults, removeOrder);
    assert forall p :: p in removeOrder <==> p in written by {
      assert forall p :: p in removeOrder <==> p in Elems(removeOrder);
    }
    if n < |removeOrder| {
      assert removeOrder[n] in written;
    } else {
      assert forall p :: p in removeOrder ==> p !in faults.remove;
      WritePassEffect(faults, layout, data, removed, keyOrder);
      var w := WritablePrefix(faults, layout, keyOrder);
      assert forall k :: k in keyOrder <==> k in data by {
        assert forall k :: k in keyOrder <==> k in Elems(keyOrder);
      }
      if w < |keyOrder| {
        assert keyOrder[w] in data;
      } else {
        assert forall k :: k in keyOrder ==> Writable(faults, layout, k);
      }
    }
  }

  /** After a successful sync the written set is the old one plus every
      target, the directory holds exactly the untracked files it held before
      plus the targets, each target holds the data of the last entry written
      to it, and untracked non-target files are untouched. */
  lemma SyncSuccess(faults: Faults, layout: Layout, data: map<string, Bytes>, files: map<Path, Bytes>,
                    written: set<Path>, removeOrder: seq<Path>, keyOrder: seq<string>)
    requires IsEnumeration(removeOrder, written) && IsEnumeration(keyOrder, data.Keys)
    requires Sync(faults, layout, data, files, written, removeOrder, keyOrder).failure.None?
    ensures KeyTargets(layout, keyOrder) == Targets(layout, data)
    ensures var r := Sync(faults, layout, data, files, written, removeOrder, keyOrder);
            && r.written == written + Targets(layout, data)
            && r.files.Keys == (files.Keys - written) + Targets(layout, data)
            && (forall p :: p in Targets(layout, data) ==> r.files[p] == data[LastWriter(layout, keyOrder, p)])
            && (forall p :: p in files && p !in written && p !in Targets(layout, data) ==> r.files[p] == files[p])
  {
    EnumerationTargets(layout, data, keyOrder);
    var s := SyncState(files, written, None);
    RemovePassEffect(faults, s, removeOrder);
    var removed := RemovePass(faults, s, removeOrder);
    if removed.failure.Some? {
    }
    assert removeOrder[..|removeOrder|] == removeOrder;
    WritePassEffect(faults, layout, data, removed, keyOrder);
    var w := WritablePrefix(faults, layout, keyOrder);
    assert keyOrder[..w] == keyOrder;
  }

  /** After a successful sync every entry's file exists, and it holds exactly
      that entry's data unless another entry joins to the same path. */
  lemma SyncWritesEveryEntry(faults: Faults, layout: Layout, data: map<string, Bytes>, files: map<Path, Bytes>,
                             written: set<Path>, removeOrder: seq<Path>, keyOrder: seq<string>)
    requires IsEnumeration(removeOrder, written) && IsEnumeration(keyOrder, data.Keys)
    requires Sync(faults, layout, data, files, written, removeOrder, keyOrder).failure.None?
    ensures var r := Sync(faults, layout, data, files, written, removeOrder, keyOrder);
            forall k :: k in data ==>
              && layout.Target(k) in r.files
              && ((forall k' :: k' in data && k' != k ==> layout.Target(k') != layout.Target(k))
                  ==> r.files[layout.Target(k)] == data[k])
  {
    SyncSuccess(faults, layout, data, files, written, removeOrder, keyOrder);
    assert forall k :: k in keyOrder <==> k in data by {
      assert forall k :: k in keyOrder <==> k in Elems(keyOrder);
    }
  }

  /** After a successful sync no previously written file that is not a target
      of the new data exists any more. */
  lemma SyncRemovesStale(faults: Faults, layout: Layout, data: map<string, Bytes>, files: map<Path, Bytes>,
                         written: set<Path>, removeOrder: seq<Path>, keyOrder: seq<string>)
    requires IsEnumeration(removeOrder, written) && IsEnumeration(keyOrder, data.Keys)
    requires Sync(faults, layout, data, files, written, removeOrder, keyOrder).failure.None?
    ensures var r := Sync(faults, layout, data, files, written, removeOrder, keyOrder);
            forall p :: p in written && p !in Targets(layout, data) ==> p !in r.files
  {
    SyncSuccess(faults, layout, data, files, written, removeOrder, keyOrder);
  }

  /** The written set only grows, and never beyond the targets: whether the
      sync succeeds or fails, it is the old set plus the targets of the
      entries written before the first failure. */
  lemma SyncWrittenGrows(faults: Faults, layout: Layout, data: map<string, Bytes>, files: map<Path, Bytes>,
                         written: set<Path>, removeOrder: seq<Path>, keyOrder: seq<string>)
    requires IsEnumeration(removeOrder, written) && IsEnumeration(keyOrder, data.Keys)
    ensures var r := Sync(faults, layout, data, files, written, removeOrder, keyOrder);
            && written <= r.written <= written + Targets(layout, data)
            && (RemovablePrefix(faults, removeOrder) < |removeOrder| ==> r.written == written)
            && (RemovablePrefix(faults, removeOrder) == |removeOrder| ==>
                  r.written == written + KeyTargets(layout, keyOrder[..WritablePrefix(faults, layout, keyOrder)]))
  {
    EnumerationTargets(layout, data, keyOrder);
    var s := SyncState(files, written, None);
    RemovePassEffect(faults, s, removeOrder);
    var removed := RemovePass(faults, s, removeOrder);
    if removed.failure.Some? {
    } else {
      WritePassEffect(faults, layout, data, removed, keyOrder);
      KeyTargetsPrefix(layout, keyOrder, WritablePrefix(faults, layout, keyOrder));
    }
  }

  /** A removal error ends the sync before anything is written: the error
      names the first tracked path (in iteration order) that cannot be
      removed, the written set is unchanged, and every file left holds the
      content it held before. */
  lemma SyncRemoveFailure(faults: Faults, layout: Layout, data: map<string, Bytes>, files: map<Path, Bytes>,
                          written: set<Path>, removeOrder: seq<Path>, keyOrder: seq<string>)
    requires IsEnumeration(removeOrder, written) && IsEnumeration(keyOrder, data.Keys)
    requires exists p :: p in written && p in faults.remove
    ensures var r := Sync(faults, layout, data, files, written, removeOrder, keyOrder);
            var n := RemovablePrefix(faults, removeOrder);
            && n < |removeOrder|
            && r.failure == Some(CannotDelete(removeOrder[n]))
            && r.written == written
            && r.files == files - Elems(removeOrder[..n])
  {
    var s := SyncState(files, written, None);
    RemovePassEffect(faults, s, removeOrder);
    var removed := RemovePass(faults, s, removeOrder);
    var p :| p in written && p in faults.remove;
    assert p in Elems(removeOrder);
  }

  /** A mkdir or write error ends the sync: every tracked path was removed,
      the error names the first entry (in iteration order) that cannot be
      written, and only the entries before it were written. */
  lemma SyncWriteFailure(faults: Faults, layout: Layout, data: map<string, Bytes>, files: map<Path, Bytes>,
                         written: set<Path>, removeOrder: seq<Path>, keyOrder: seq<string>)
    requires IsEnumeration(removeOrder, written) && IsEnumeration(keyOrder, data.Keys)
    requires forall p :: p in written ==> p !in faults.remove
    requires exists k :: k in data && !Writable(faults, layout, k)
    ensures var r := Sync(faults, layout, data, files, written, removeOrder, keyOrder);
            var n := WritablePrefix(faults, layout, keyOrder);
            var done := KeyTargets(layout, keyOrder[..n]);
            && n < |keyOrder|
            && r.failure == Some(WriteFailure(faults, layout, keyOrder[n]))
            && r.written == written + done
            && r.files.Keys == (files.Keys - written) + done
  {
    var s := SyncState(files, written, None);
    RemovePassEffect(faults, s, removeOrder);
    var removed := RemovePass(faults, s, removeOrder);
    var m := RemovablePrefix(faults, removeOrder);
    assert forall i :: 0 <= i < |removeOrder| ==> removeOrder[i] in Elems(removeOrder);
    assert m == |removeOrder| && removeOrder[..m] == removeOrder;
    WritePassEffect(faults, layout, data, removed, keyOrder);
    var k :| k in data && !Writable(faults, layout, k);
    assert k in Elems(keyOrder);
  }

  /** Whatever happens, a path that is neither tracked nor a target keeps its
      presence and its content. */
  lemma SyncFrame(faults: Faults, layout: Layout, data: map<string, Bytes>, files: map<Path, Bytes>,
                  written: set<Path>, removeOrder: seq<Path>, keyOrder: seq<string>, p: Path)
    requires IsEnumeration(removeOrder, written) && IsEnumeration(keyOrder, data.Keys)
    requires p !in written && p !in Targets(layout, data)
    ensures var r := Sync(faults, layout, data, files, written, removeOrder, keyOrder);
            && (p in r.files <==> p in files)
            && (p in files ==> r.files[p] == files[p])
  {
    SyncWrittenGrows(faults, layout, data, files, written, removeOrder, keyOrder);
    var s := SyncState(files, written, None);
    RemovePassEffect(faults, s, removeOrder);
    var removed := RemovePass(faults, s, removeOrder);
    var n := RemovablePrefix(faults, removeOrder);
    assert forall x :: x in removeOrder[..n] ==> x in removeOrder;
    if removed.failure.Some? {
    } else {
      WritePassEffect(faults, layout, data, removed, keyOrder);
      var w := WritablePrefix(faults, layout, keyOrder);
      EnumerationTargets(layout, data, keyOrder);
      KeyTargetsPrefix(layout, keyOrder, w);
    }
  }

  /** When every file in the directory was written by an earlier sync, a
      successful sync leaves exactly the files of the new data. */
  lemma SyncMatchesSnapshot(faults: Faults, layout: Layout, data: map<string, Bytes>, files: map<Path, Bytes>,
                            written: set<Path>, removeOrder: seq<Path>, keyOrder: seq<string>)
    requires IsEnumeration(removeOrder, written) && IsEnumeration(keyOrder, data.Keys)
    requires files.Keys <= written
    requires Sync(faults, layout, data, files, written, removeOrder, keyOrder).failure.None?
    ensures Sync(faults, layout, data, files, written, removeOrder, keyOrder).files.Keys == Targets(layout, data)
  {
    SyncSuccess(faults, layout, data, files, written, removeOrder, keyOrder);
  }

  /** Two successful syncs in a row: nothing written for the first data that
      is not a target of the second remains, yet the written set still holds
      the first data's targets. */
  lemma SyncTwice(faults: Faults, layout: Layout, data1: map<string, Bytes>, data2: map<string, Bytes>,
                  files: map<Path, Bytes>, written: set<Path>,
                  removeOrder1: seq<Path>, keyOrder1: seq<string>, removeOrder2: seq<Path>, keyOrder2: seq<string>)
    requires IsEnumeration(removeOrder1, written) && IsEnumeration(keyOrder1, data1.Keys)
    requires Sync(faults, layout, data1, files, written, removeOrder1, keyOrder1).failure.None?
    requires var r1 := Sync(faults, layout, data1, files, written, removeOrder1, keyOrder1);
             IsEnumeration(removeOrder2, r1.written) && IsEnumeration(keyOrder2, data2.Keys)
             && Sync(faults, layout, data2, r1.files, r1.written, removeOrder2, keyOrder2).failure.None?
    ensures var r1 := Sync(faults, layout, data1, files, written, removeOrder1, keyOrder1);
            var r2 := Sync(faults, layout, data2, r1.files, r1.written, removeOrder2, keyOrder2);
            && (forall k :: k in data1 && layout.Target(k) !in Targets(layout, data2) ==> layout.Target(k) !in r2.files)
            && Targets(layout, data1) <= r2.written
  {
    var r1 := Sync(faults, layout, data1, files, written, removeOrder1, keyOrder1);
    SyncSuccess(faults, layout, data1, files, written, removeOrder1, keyOrder1);
    SyncSuccess(faults, layout, data2, r1.files, r1.written, removeOrder2, keyOrder2);
  }

  // ---------------------------------------------------------------------------
  // The loops

  /** The removal loop: every tracked path is removed in `order`; a missing
      file is only logged, any other error ends the loop. */
  method RemoveObsolete(fs: FileSystem, written: set<Path>, order: seq<Path>) returns (failure: Option<Error>)
    modifies fs
    ensures var r := RemovePass(fs.faults, SyncState(old(fs.files), written, None), order);
            fs.files == r.files && failure == r.failure
  {
    ghost var start := SyncState(fs.files, written, None);
    var i := 0;
    while i < |order|
      invariant i <= |order|
      invariant RemovePass(fs.faults, start, order[..i]) == SyncState(fs.files, written, None)
    {
      var fileName := order[i];
      assert order[..i + 1][..i] == order[..i];
      var res := fs.Remove(fileName);
      if res == RemoveFailed {
        RemovePrefixFailed(fs.faults, start, order, i + 1);
        return Some(CannotDelete(fileName));
      }
      // res == NotExist is only logged as a warning
      i := i + 1;
    }
    assert order[..i] == order;
    failure := None;
  }

  /** The writing loop: each entry's parent directory is created and its file
      written, in `keys`; the written path is then recorded. */
  method WriteEntries(fs: FileSystem, layout: Layout, data: map<string, Bytes>, written: set<Path>,
                      keys: seq<string>)
    returns (newWritten: set<Path>, failure: Option<Error>)
    requires forall k :: k in keys ==> k in data
    modifies fs
    ensures var r := WritePass(fs.faults, layout, data, SyncState(old(fs.files), written, None), keys);
            fs.files == r.files && newWritten == r.written && failure == r.failure
  {
    ghost var start := SyncState(fs.files, written, None);
    newWritten := written;
    var j := 0;
    while j < |keys|
      invariant j <= |keys|
      invariant WritePass(fs.faults, layout, data, start, keys[..j]) == SyncState(fs.files, newWritten, None)
    {
      var name := keys[j];
      var fileName := layout.Target(name);
      assert keys[..j + 1][..j] == keys[..j];
      var ok := fs.MkdirAll(layout.paths.dir(fileName));
      if !ok {
        WritePrefixFailed(fs.faults, layout, data, start, keys, j + 1);
        return newWritten, Some(CannotCreateParent(fileName));
      }
      ok := fs.WriteFile(fileName, data[name]);
      if !ok {
        WritePrefixFailed(fs.faults, layout, data, start, keys, j + 1);
        return newWritten, Some(CannotWrite(fileName));
      }
      newWritten := newWritten + {fileName};
      j := j + 1;
    }
    assert keys[..j] == keys;
    failure := None;
  }

  /** The two loops of `updateFromConfigMap` / `PopulateDirectoryFromConfigMap`
      (everything between taking the lock and reloading). `written` is the
      `writtenFiles` set on entry and `newWritten` the set after the loops,
      to which every successfully written path has been added. */
  method SyncDirectory(fs: FileSystem, layout: Layout, data: map<string, Bytes>, written: set<Path>,
                       removeOrder: seq<Path>, keyOrder: seq<string>)
    returns (newWritten: set<Path>, failure: Option<Error>)
    requires IsEnumeration(removeOrder, written) && IsEnumeration(keyOrder, data.Keys)
    modifies fs
    ensures var r := Sync(fs.faults, layout, data, old(fs.files), written, removeOrder, keyOrder);
            fs.files == r.files && newWritten == r.written && failure == r.failure
  {
    assert forall k :: k in keyOrder ==> k in data by {
      assert forall k :: k in keyOrder ==> k in Elems(keyOrder);
    }
    ghost var removed := RemovePass(fs.faults, SyncState(fs.files, written, None), removeOrder);
    failure := RemoveObsolete(fs, written, removeOrder);
    if failure.Some? {
      return written, failure;
    }
    assert removed == SyncState(fs.files, written, None);
    newWritten, failure := WriteEntries(fs, layout, data, written, keyOrder);
  }
}
