/**
 * What the walk of `recur` guarantees: directories disappear only when
 * they are listed empty; every rename and skip follows the naming rule
 * with the counter of its own directory; the k-th regular file of a
 * listing gets ordinal k; a walk changes nothing outside the directory it
 * starts from; and a directory already numbered in listing order is left
 * as it is.
 */
module WalkProperties {
  import opened Outcomes
  import opened Paths
  import opened FileSystem
  import opened Walk

  /** The directories a log records as removed. */
  function RemovedDirs(log: seq<Event>): set<string> {
    if log == [] then {}
    else (if log[0].Removed? then {log[0].dir} else {}) + RemovedDirs(log[1..])
  }

  lemma {:induction false} RemovedDirsOnlyRemoved(log: seq<Event>, d: string)
    ensures d in RemovedDirs(log) <==> Removed(d) in log
  {
    if log != [] {
      RemovedDirsOnlyRemoved(log[1..], d);
      assert log == [log[0]] + log[1..];
    }
  }

  lemma {:induction false} RemovedDirsConcat(a: seq<Event>, b: seq<Event>)
    ensures RemovedDirs(a + b) == RemovedDirs(a) + RemovedDirs(b)
  {
    if a == [] {
      assert a + b == b;
    } else {
      assert (a + b)[0] == a[0];
      assert (a + b)[1..] == a[1..] + b;
      RemovedDirsConcat(a[1..], b);
    }
  }

  /** The directories after run `r` are those of `before` minus the ones it
      logged as removed, and it only logs directories that existed. */
  ghost predicate RemovesOnly(before: Fs, r: Run) {
    RemovedDirs(r.log) <= Dirs(before.nodes) && Dirs(r.fs.nodes) == Dirs(before.nodes) - RemovedDirs(r.log)
  }

  lemma RemovesOnlyAfter(fs: Fs, log: seq<Event>, mid: Fs, rest: Run)
    requires RemovedDirs(log) <= Dirs(fs.nodes) && Dirs(mid.nodes) == Dirs(fs.nodes) - RemovedDirs(log)
    requires RemovesOnly(mid, rest)
    ensures RemovesOnly(fs, After(log, rest))
  {
    RemovedDirsConcat(log, rest.log);
  }

  /** A step that removes nothing and keeps the directories, in front of the rest. */
  lemma RemovesOnlyAfterStep(fs: Fs, ev: Event, mid: Fs, rest: Run)
    requires !ev.Removed? && Dirs(mid.nodes) == Dirs(fs.nodes)
    requires RemovesOnly(mid, rest)
    ensures RemovesOnly(fs, After([ev], rest))
  {
    assert RemovedDirs([ev]) == {};
    RemovesOnlyAfter(fs, [ev], mid, rest);
  }

  /**
   * Directories are never renamed: the directories after a walk are those
   * before it minus the ones the walk logged as removed.
   */
  lemma {:induction false} WalkDirRemovesOnly(fs: Fs, path: string, naming: Naming)
    ensures RemovesOnly(fs, WalkDir(fs, path, naming))
    decreases Deeper(fs.nodes, path), 1
  {
    if IsDir(fs, path) && path !in fs.unreadable {
      if fs.nodes[path].entries == [] {
        EmptyRemovesOnly(fs, path, naming);
      } else {
        StepIntoListing(fs, path, naming);
        WalkEntriesRemovesOnly(fs, path, fs.nodes[path].entries, 0, 1, naming);
      }
    }
  }

  lemma EmptyRemovesOnly(fs: Fs, path: string, naming: Naming)
    requires IsDir(fs, path) && path !in fs.unreadable && fs.nodes[path].entries == []
    ensures RemovesOnly(fs, WalkDir(fs, path, naming))
  {
    if Removal(fs, path).Ok? {
      RemovalDirs(fs, path);
      assert RemovedDirs([Removed(path)]) == {path};
    }
  }

  lemma {:induction false} WalkEntriesRemovesOnly(fs: Fs, path: string, names: seq<Name>, i: nat, ordinal: nat, naming: Naming)
    requires i <= |names|
    ensures RemovesOnly(fs, WalkEntries(fs, path, names, i, ordinal, naming))
    decreases Deeper(fs.nodes, path), 0, |names| - i, 2
  {
    if i < |names| {
      var child := Join(path, names[i]);
      if IsDir(fs, child) {
        DirectoryStepRemovesOnly(fs, path, names, i, ordinal, naming);
      } else if IsFile(fs, child) {
        var named := naming(child, ordinal);
        if named.Err? {
          StepNoExtension(fs, path, names, i, ordinal, naming);
        } else if named.value == child {
          SkipStepRemovesOnly(fs, path, names, i, ordinal, naming);
        } else {
          RenameStepRemovesOnly(fs, path, names, i, ordinal, named.value, naming);
        }
      } else {
        StepOverOther(fs, path, names, i, ordinal, naming);
        WalkEntriesRemovesOnly(fs, path, names, i + 1, ordinal, naming);
      }
    }
  }

  lemma {:induction false} DirectoryStepRemovesOnly(fs: Fs, path: string, names: seq<Name>, i: nat, ordinal: nat, naming: Naming)
    requires i < |names| && IsDir(fs, Join(path, names[i]))
    ensures RemovesOnly(fs, WalkEntries(fs, path, names, i, ordinal, naming))
    decreases Deeper(fs.nodes, path), 0, |names| - i, 1
  {
    var child := Join(path, names[i]);
    DeeperChild(fs.nodes, path, child);
    WalkDirRemovesOnly(fs, child, naming);
    var sub := WalkDir(fs, child, naming);
    StepIntoDirectory(fs, path, names, i, ordinal, naming);
    if sub.failure.None? {
      DeeperShrinks(fs.nodes, sub.fs.nodes, path);
      WalkEntriesRemovesOnly(sub.fs, path, names, i + 1, ordinal, naming);
      RemovesOnlyAfter(fs, sub.log, sub.fs, WalkEntries(sub.fs, path, names, i + 1, ordinal, naming));
    }
  }

  lemma {:induction false} SkipStepRemovesOnly(fs: Fs, path: string, names: seq<Name>, i: nat, ordinal: nat, naming: Naming)
    requires i < |names| && IsFile(fs, Join(path, names[i]))
    requires naming(Join(path, names[i]), ordinal) == Ok(Join(path, names[i]))
    ensures RemovesOnly(fs, WalkEntries(fs, path, names, i, ordinal, naming))
    decreases Deeper(fs.nodes, path), 0, |names| - i, 1
  {
    var ev := Skipped(path, Join(path, names[i]), ordinal);
    StepSkip(fs, path, names, i, ordinal, naming);
    WalkEntriesRemovesOnly(fs, path, names, i + 1, ordinal + 1, naming);
    RemovesOnlyAfterStep(fs, ev, fs, WalkEntries(fs, path, names, i + 1, ordinal + 1, naming));
  }

  lemma {:induction false} RenameStepRemovesOnly(fs: Fs, path: string, names: seq<Name>, i: nat, ordinal: nat, dst: string, naming: Naming)
    requires i < |names| && IsFile(fs, Join(path, names[i]))
    requires naming(Join(path, names[i]), ordinal) == Ok(dst) && dst != Join(path, names[i])
    ensures RemovesOnly(fs, WalkEntries(fs, path, names, i, ordinal, naming))
    decreases Deeper(fs.nodes, path), 0, |names| - i, 1
  {
    var child := Join(path, names[i]);
    StepRename(fs, path, names, i, ordinal, dst, naming);
    if Renaming(fs, child, dst, path).Ok? {
      var after := Renaming(fs, child, dst, path).value;
      RenamingKeepsDirs(fs, child, dst, path);
      assert Deeper(after.nodes, path) == Deeper(fs.nodes, path);
      WalkEntriesRemovesOnly(after, path, names, i + 1, ordinal + 1, naming);
      RemovesOnlyAfterStep(fs, Renamed(path, child, dst, ordinal), after, WalkEntries(after, path, names, i + 1, ordinal + 1, naming));
    }
  }

  /** A rename goes where the naming rule said, and is never a rename onto
      itself; a skip happens where the naming rule gave back the file's own path. */
  ghost predicate FollowsNaming(e: Event, naming: Naming) {
    && (e.Renamed? ==> naming(e.src, e.ordinal) == Ok(e.dst) && e.dst != e.src)
    && (e.Skipped? ==> naming(e.src, e.ordinal) == Ok(e.src))
  }

  /** An event of the loop over `path`'s listing: a rename or skip in `path`
      itself, or anything at all in a directory inside it. */
  ghost predicate InLoopOf(e: Event, path: string) {
    (e.dir == path && !e.Removed?) || (|e.dir| > |path| && Within(path, e.dir))
  }

  /** Every event of `log` belongs to the loop over `path` and follows the naming rule. */
  ghost predicate LoopEvents(log: seq<Event>, path: string, naming: Naming) {
    forall e :: e in log ==> InLoopOf(e, path) && FollowsNaming(e, naming)
  }

  lemma LoopEventsConcat(a: seq<Event>, b: seq<Event>, path: string, naming: Naming)
    requires LoopEvents(a, path, naming) && LoopEvents(b, path, naming)
    ensures LoopEvents(a + b, path, naming)
  {
    forall e | e in a + b ensures InLoopOf(e, path) && FollowsNaming(e, naming) {
      if e !in a {
        assert e in b;
      }
    }
  }

  /** The events of a walk of `child`, a directory inside `path`, belong to the loop over `path`. */
  lemma EventsOfSubdirectory(log: seq<Event>, path: string, child: string, naming: Naming)
    requires |child| > |path| && Within(path, child)
    requires forall e :: e in log ==> Within(child, e.dir) && FollowsNaming(e, naming)
    ensures LoopEvents(log, path, naming)
  {
    forall e | e in log ensures InLoopOf(e, path) && FollowsNaming(e, naming) {
      WithinTrans(path, child, e.dir);
    }
  }

  /**
   * Every event of a walk happens in the starting directory or in a
   * directory inside it, and follows the naming rule.
   */
  lemma {:induction false} WalkDirEvents(fs: Fs, path: string, naming: Naming)
    ensures forall e :: e in WalkDir(fs, path, naming).log ==> Within(path, e.dir) && FollowsNaming(e, naming)
    decreases Deeper(fs.nodes, path), 1
  {
    if IsDir(fs, path) && path !in fs.unreadable && fs.nodes[path].entries != [] {
      StepIntoListing(fs, path, naming);
      WalkEntriesEvents(fs, path, fs.nodes[path].entries, 0, 1, naming);
    }
  }

  /**
   * In the loop over a listing, the only events tagged with the directory
   * itself are its renames and skips; everything else comes from deeper
   * walks.
   */
  lemma {:induction false} WalkEntriesEvents(fs: Fs, path: string, names: seq<Name>, i: nat, ordinal: nat, naming: Naming)
    requires i <= |names|
    ensures LoopEvents(WalkEntries(fs, path, names, i, ordinal, naming).log, path, naming)
    decreases Deeper(fs.nodes, path), 0, |names| - i, 2
  {
    if i < |names| {
      var child := Join(path, names[i]);
      if IsDir(fs, child) {
        DirectoryStepEvents(fs, path, names, i, ordinal, naming);
      } else if IsFile(fs, child) {
        var named := naming(child, ordinal);
        if named.Err? {
          StepNoExtension(fs, path, names, i, ordinal, naming);
        } else if named.value == child {
          SkipStepEvents(fs, path, names, i, ordinal, naming);
        } else {
          RenameStepEvents(fs, path, names, i, ordinal, named.value, naming);
        }
      } else {
        StepOverOther(fs, path, names, i, ordinal, naming);
        WalkEntriesEvents(fs, path, names, i + 1, ordinal, naming);
      }
    }
  }

  lemma {:induction false} DirectoryStepEvents(fs: Fs, path: string, names: seq<Name>, i: nat, ordinal: nat, naming: Naming)
    requires i < |names| && IsDir(fs, Join(path, names[i]))
    ensures LoopEvents(WalkEntries(fs, path, names, i, ordinal, naming).log, path, naming)
    decreases Deeper(fs.nodes, path), 0, |names| - i, 1
  {
    var child := Join(path, names[i]);
    DeeperChild(fs.nodes, path, child);
    WalkDirEvents(fs, child, naming);
    var sub := WalkDir(fs, child, naming);
    JoinWithin(path, names[i]);
    EventsOfSubdirectory(sub.log, path, child, naming);
    StepIntoDirectory(fs, path, names, i, ordinal, naming);
    if sub.failure.None? {
      DeeperShrinks(fs.nodes, sub.fs.nodes, path);
      WalkEntriesEvents(sub.fs, path, names, i + 1, ordinal, naming);
      LoopEventsConcat(sub.log, WalkEntries(sub.fs, path, names, i + 1, ordinal, naming).log, path, naming);
    }
  }

  lemma {:induction false} SkipStepEvents(fs: Fs, path: string, names: seq<Name>, i: nat, ordinal: nat, naming: Naming)
    requires i < |names| && IsFile(fs, Join(path, names[i]))
    requires naming(Join(path, names[i]), ordinal) == Ok(Join(path, names[i]))
    ensures LoopEvents(WalkEntries(fs, path, names, i, ordinal, naming).log, path, naming)
    decreases Deeper(fs.nodes, path), 0, |names| - i, 1
  {
    var ev := Skipped(path, Join(path, names[i]), ordinal);
    StepSkip(fs, path, names, i, ordinal, naming);
    WalkEntriesEvents(fs, path, names, i + 1, ordinal + 1, naming);
    assert LoopEvents([ev], path, naming);
    LoopEventsConcat([ev], WalkEntries(fs, path, names, i + 1, ordinal + 1, naming).log, path, naming);
  }

  lemma {:induction false} RenameStepEvents(fs: Fs, path: string, names: seq<Name>, i: nat, ordinal: nat, dst: string, naming: Naming)
    requires i < |names| && IsFile(fs, Join(path, names[i]))
    requires naming(Join(path, names[i]), ordinal) == Ok(dst) && dst != Join(path, names[i])
    ensures LoopEvents(WalkEntries(fs, path, names, i, ordinal, naming).log, path, naming)
    decreases Deeper(fs.nodes, path), 0, |names| - i, 1
  {
    var child := Join(path, names[i]);
    StepRename(fs, path, names, i, ordinal, dst, naming);
    if Renaming(fs, child, dst, path).Ok? {
      var after := Renaming(fs, child, dst, path).value;
      RenamingKeepsDirs(fs, child, dst, path);
      assert Deeper(after.nodes, path) == Deeper(fs.nodes, path);
      WalkEntriesEvents(after, path, names, i + 1, ordinal + 1, naming);
      var ev := Renamed(path, child, dst, ordinal);
      assert LoopEvents([ev], path, naming);
      LoopEventsConcat([ev], WalkEntries(after, path, names, i + 1, ordinal + 1, naming).log, path, naming);
    }
  }

  /**
   * A directory listed empty is removed, and nothing else happens in it,
   * unless the operating system refuses: to list it, to remove it for lack
   * of permission, or to remove it for some other reason.
   */
  lemma EmptyDirectoryRemoved(fs: Fs, path: string, naming: Naming)
    requires IsDir(fs, path) && fs.nodes[path].entries == []
    ensures path in fs.unreadable ==> WalkDir(fs, path, naming) == Run(fs, [], Some(ListFailed(path)))
    ensures path !in fs.unreadable && path in fs.denied ==>
      WalkDir(fs, path, naming) == Run(fs, [], Some(RemoveDenied(path)))
    ensures path !in fs.unreadable && path !in fs.denied && path in fs.stuck ==>
      WalkDir(fs, path, naming) == Run(fs, [], Some(RemoveFailed(path)))
    ensures path !in fs.unreadable && path !in fs.denied && path !in fs.stuck ==>
      var r := WalkDir(fs, path, naming);
      r.log == [Removed(path)] && r.failure == None && KindOf(r.fs.nodes, path) == Absent
      && SameKindsExcept(fs.nodes, r.fs.nodes, {path})
  {
  }

  /**
   * A directory listed non-empty is never removed, even when the walk
   * removes every subdirectory it had: emptiness is looked at once, before
   * the loop.
   */
  lemma NonEmptyDirectoryKept(fs: Fs, path: string, naming: Naming)
    requires IsDir(fs, path) && fs.nodes[path].entries != []
    ensures IsDir(WalkDir(fs, path, naming).fs, path)
    ensures Removed(path) !in WalkDir(fs, path, naming).log
  {
    if path !in fs.unreadable {
      var r := WalkDir(fs, path, naming);
      StepIntoListing(fs, path, naming);
      WalkEntriesRemovesOnly(fs, path, fs.nodes[path].entries, 0, 1, naming);
      WalkEntriesEvents(fs, path, fs.nodes[path].entries, 0, 1, naming);
      assert !InLoopOf(Removed(path), path);
      RemovedDirsOnlyRemoved(r.log, path);
      assert path in Dirs(fs.nodes);
      assert path in Dirs(r.fs.nodes);
    }
  }
}
