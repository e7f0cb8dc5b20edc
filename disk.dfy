/**
 * The program's view of the disk as mutable state: the operating-system
 * calls it makes, and `recur`, the loop that walks one directory, numbers
 * its files in listing order and descends into its subdirectories.
 */
module Disk {
  import opened Outcomes
  import opened Paths
  import opened FileSystem
  import opened Walk

  class Disk {
    var nodes: map<string, Node>
    const denied: set<string>
    const unreadable: set<string>
    const stuck: set<string>

    function State(): Fs
      reads this
    {
      Fs(nodes, denied, unreadable, stuck)
    }

    constructor (initial: Fs)
      ensures State() == initial
    {
      nodes := initial.nodes;
      denied := initial.denied;
      unreadable := initial.unreadable;
      stuck := initial.stuck;
    }

    /** `os.listdir(path)` */
    method ListDir(path: string) returns (r: Result<seq<Name>, Failure>)
      ensures r.Ok? <==> IsDir(State(), path) && path !in unreadable
      ensures r.Ok? ==> r.value == nodes[path].entries
      ensures r.Err? ==> r.error == ListFailed(path)
    {
      if IsDir(State(), path) && path !in unreadable {
        r := Ok(nodes[path].entries);
      } else {
        r := Err(ListFailed(path));
      }
    }

    /** `os.rmdir(path)` */
    method Rmdir(path: string) returns (failure: Option<Failure>)
      modifies this
      ensures Removal(old(State()), path).Ok? ==> nodes == Removal(old(State()), path).value.nodes && failure == None
      ensures Removal(old(State()), path).Err? ==> nodes == old(nodes) && failure == Some(Removal(old(State()), path).error)
    {
      match Removal(State(), path)
      case Ok(after) =>
        nodes := after.nodes;
        failure := None;
      case Err(e) =>
        failure := Some(e);
    }

    /** `os.rename(src, dst)` for a regular file, inside the walk of `dir` */
    method Rename(src: string, dst: string, dir: string) returns (failure: Option<Failure>)
      requires IsFile(State(), src)
      modifies this
      ensures Renaming(old(State()), src, dst, dir).Ok? ==>
        nodes == Renaming(old(State()), src, dst, dir).value.nodes && failure == None
      ensures Renaming(old(State()), src, dst, dir).Err? ==>
        nodes == old(nodes) && failure == Some(Renaming(old(State()), src, dst, dir).error)
    {
      match Renaming(State(), src, dst, dir)
      case Ok(after) =>
        nodes := after.nodes;
        failure := None;
      case Err(e) =>
        failure := Some(e);
    }

    /**
     * `recur(path)`. The state it leaves and the exception it stops with
     * are exactly those of WalkDir, including the partial changes made
     * before a failure.
     */
    method Recur(path: string) returns (failure: Option<Failure>)
      modifies this
      decreases Deeper(nodes, path), 1
      ensures nodes == WalkDir(old(State()), path, GetNewName).fs.nodes
      ensures failure == WalkDir(old(State()), path, GetNewName).failure
    {
      var listed := ListDir(path);
      if listed.Err? {
        return Some(listed.error);
      }
      var paths := listed.value;
      if paths == [] {
        failure := Rmdir(path);
        return;
      }
      ghost var goal := WalkEntries(old(State()), path, paths, 0, 1, GetNewName);
      var ordinal := 1;
      for i := 0 to |paths|
        invariant Dirs(nodes) <= Dirs(old(nodes))
        invariant WalkEntries(State(), path, paths, i, ordinal, GetNewName).fs == goal.fs
        invariant WalkEntries(State(), path, paths, i, ordinal, GetNewName).failure == goal.failure
      {
        var child := Join(path, paths[i]);
        ghost var before := State();
        if IsDir(State(), child) {
          StepIntoDirectory(State(), path, paths, i, ordinal, GetNewName);
          DeeperChild(nodes, path, child);
          DeeperShrinks(old(nodes), nodes, path);
          failure := Recur(child);
          if failure.Some? {
            return;
          }
        } else if IsFile(State(), child) {
          StepOverFile(State(), path, paths, i, ordinal, GetNewName);
          var newName := GetNewName(child, ordinal);
          if newName.Err? {
            return Some(MissingExtension(child));
          }
          ordinal := ordinal + 1;
          if child == newName.value {
            continue;
          }
          failure := Rename(child, newName.value, path);
          if failure.Some? {
            return;
          }
          RenamingKeepsDirs(before, child, newName.value, path);
        } else {
          StepOverOther(State(), path, paths, i, ordinal, GetNewName);
        }
      }
      failure := None;
    }
  }
}
