/**
 * What `recur(path)` does to the file system, as a function of the state
 * it starts from: the state it leaves behind, the renames, skips and
 * removals it performs in order, and the exception that ends it early, if
 * any. Disk.Recur is the loop that the program runs; it is proved to
 * compute exactly this.
 */
module Walk {
  import opened Outcomes
  import opened Paths
  import opened FileSystem

  /** The renaming rule the walk applies to each regular file: `get_new_name`
      in the program (Paths.GetNewName); a parameter here, so that what the
      walk does with a name can be stated apart from how the name is made. */
  type Naming = (string, nat) -> Result<string, string>

  /** One effect of the walk, tagged with the directory being processed. */
  datatype Event =
    | Removed(dir: string)
    | Renamed(dir: string, src: string, dst: string, ordinal: nat)
    | Skipped(dir: string, src: string, ordinal: nat)

  /** Where a walk ends: the state, what it did, and why it stopped early. */
  datatype Run = Run(fs: Fs, log: seq<Event>, failure: Option<Failure>)

  /** Directories whose path is longer than `p`: the walk only ever goes
      down into longer paths, and never creates a directory. */
  function Deeper(nodes: map<string, Node>, p: string): nat {
    var below := set q | q in Dirs(nodes) && |q| > |p|;
    |below|
  }

  lemma DeeperShrinks(m: map<string, Node>, m': map<string, Node>, p: string)
    requires Dirs(m') <= Dirs(m)
    ensures Deeper(m', p) <= Deeper(m, p)
  {
    var a := set q | q in Dirs(m') && |q| > |p|;
    var b := set q | q in Dirs(m) && |q| > |p|;
    assert a <= b;
    assert b == a + (b - a);
  }

  lemma DeeperChild(m: map<string, Node>, p: string, c: string)
    requires c in Dirs(m) && |c| > |p|
    ensures Deeper(m, c) < Deeper(m, p)
  {
    var a := set q | q in Dirs(m) && |q| > |c|;
    var b := set q | q in Dirs(m) && |q| > |p|;
    assert a <= b - {c};
    assert b - {c} == a + (b - {c} - a);
  }

  /** Prepends the effects of one step to the rest of a walk. */
  function After(log: seq<Event>, rest: Run): (r: Run)
    ensures r.fs == rest.fs && r.failure == rest.failure
  {
    rest.(log := log + rest.log)
  }

  /**
   * `recur(path)`: list the directory once; remove it when the listing is
   * empty; otherwise go through the listing.
   */
  function WalkDir(fs: Fs, path: string, naming: Naming): (r: Run)
    ensures Dirs(r.fs.nodes) <= Dirs(fs.nodes)
    ensures r.fs == fs.(nodes := r.fs.nodes)
    decreases Deeper(fs.nodes, path), 1
  {
    if !IsDir(fs, path) || path in fs.unreadable then Run(fs, [], Some(ListFailed(path)))
    else if fs.nodes[path].entries == [] then
      match Removal(fs, path)
      case Ok(after) =>
        RemovalDirs(fs, path);
        Run(after, [Removed(path)], None)
      case Err(e) => Run(fs, [], Some(e))
    else WalkEntries(fs, path, fs.nodes[path].entries, 0, 1, naming)
  }

  /**
   * The loop of `recur` from position `i` of the listing `names`, with the
   * counter at `ordinal`: recurse into a directory, number a regular file
   * (skipping the rename when the name does not change), pass over any
   * other entry.
   */
  function WalkEntries(fs: Fs, path: string, names: seq<Name>, i: nat, ordinal: nat, naming: Naming): (r: Run)
    requires i <= |names|
    ensures Dirs(r.fs.nodes) <= Dirs(fs.nodes)
    ensures r.fs == fs.(nodes := r.fs.nodes)
    decreases Deeper(fs.nodes, path), 0, |names| - i
  {
    if i == |names| then Run(fs, [], None)
    else
      var child := Join(path, names[i]);
      if IsDir(fs, child) then
        DeeperChild(fs.nodes, path, child);
        var sub := WalkDir(fs, child, naming);
        if sub.failure.Some? then sub
        else
          DeeperShrinks(fs.nodes, sub.fs.nodes, path);
          After(sub.log, WalkEntries(sub.fs, path, names, i + 1, ordinal, naming))
      else if IsFile(fs, child) then
        match naming(child, ordinal)
        case Err(_) => Run(fs, [], Some(MissingExtension(child)))
        case Ok(dst) =>
          if dst == child then
            After([Skipped(path, child, ordinal)], WalkEntries(fs, path, names, i + 1, ordinal + 1, naming))
          else
            match Renaming(fs, child, dst, path)
            case Err(e) => Run(fs, [], Some(e))
            case Ok(after) =>
              RenamingKeepsDirs(fs, child, dst, path);
              After([Renamed(path, child, dst, ordinal)], WalkEntries(after, path, names, i + 1, ordinal + 1, naming))
      else WalkEntries(fs, path, names, i + 1, ordinal, naming)
  }

  /** A directory listed non-empty goes straight into the loop, counter at 1. */
  lemma StepIntoListing(fs: Fs, path: string, naming: Naming)
    requires IsDir(fs, path) && path !in fs.unreadable && fs.nodes[path].entries != []
    ensures WalkDir(fs, path, naming) == WalkEntries(fs, path, fs.nodes[path].entries, 0, 1, naming)
  {
  }

  /** One step of the loop at a subdirectory: recurse, stop if it failed. */
  lemma StepIntoDirectory(fs: Fs, path: string, names: seq<Name>, i: nat, ordinal: nat, naming: Naming)
    requires i < |names| && IsDir(fs, Join(path, names[i]))
    ensures var sub := WalkDir(fs, Join(path, names[i]), naming);
      WalkEntries(fs, path, names, i, ordinal, naming) ==
        if sub.failure.Some? then sub
        else After(sub.log, WalkEntries(sub.fs, path, names, i + 1, ordinal, naming))
  {
  }

  /** One step of the loop at a regular file: number it, then skip or rename. */
  lemma StepOverFile(fs: Fs, path: string, names: seq<Name>, i: nat, ordinal: nat, naming: Naming)
    requires i < |names| && !IsDir(fs, Join(path, names[i])) && IsFile(fs, Join(path, names[i]))
    ensures var child := Join(path, names[i]);
      WalkEntries(fs, path, names, i, ordinal, naming) ==
        match naming(child, ordinal)
        case Err(_) => Run(fs, [], Some(MissingExtension(child)))
        case Ok(dst) =>
          if dst == child then
            After([Skipped(path, child, ordinal)], WalkEntries(fs, path, names, i + 1, ordinal + 1, naming))
          else
            match Renaming(fs, child, dst, path)
            case Err(e) => Run(fs, [], Some(e))
            case Ok(after) =>
              After([Renamed(path, child, dst, ordinal)], WalkEntries(after, path, names, i + 1, ordinal + 1, naming))
  {
  }

  /** One step of the loop at an entry that is neither: nothing happens. */
  lemma StepOverOther(fs: Fs, path: string, names: seq<Name>, i: nat, ordinal: nat, naming: Naming)
    requires i < |names| && !IsDir(fs, Join(path, names[i])) && !IsFile(fs, Join(path, names[i]))
    ensures WalkEntries(fs, path, names, i, ordinal, naming) == WalkEntries(fs, path, names, i + 1, ordinal, naming)
  {
  }

  /** A file whose new name is its own path is skipped, and still uses up its ordinal. */
  lemma StepSkip(fs: Fs, path: string, names: seq<Name>, i: nat, ordinal: nat, naming: Naming)
    requires i < |names| && IsFile(fs, Join(path, names[i]))
    requires naming(Join(path, names[i]), ordinal) == Ok(Join(path, names[i]))
    ensures WalkEntries(fs, path, names, i, ordinal, naming) ==
      After([Skipped(path, Join(path, names[i]), ordinal)], WalkEntries(fs, path, names, i + 1, ordinal + 1, naming))
  {
  }

  /** A file whose new name differs is renamed, if the operating system allows it. */
  lemma StepRename(fs: Fs, path: string, names: seq<Name>, i: nat, ordinal: nat, dst: string, naming: Naming)
    requires i < |names| && IsFile(fs, Join(path, names[i]))
    requires naming(Join(path, names[i]), ordinal) == Ok(dst) && dst != Join(path, names[i])
    ensures var child := Join(path, names[i]);
      WalkEntries(fs, path, names, i, ordinal, naming) ==
        match Renaming(fs, child, dst, path)
        case Err(e) => Run(fs, [], Some(e))
        case Ok(after) =>
          After([Renamed(path, child, dst, ordinal)], WalkEntries(after, path, names, i + 1, ordinal + 1, naming))
  {
  }

  /** A file the naming rule rejects stops the walk. */
  lemma StepNoExtension(fs: Fs, path: string, names: seq<Name>, i: nat, ordinal: nat, naming: Naming)
    requires i < |names| && IsFile(fs, Join(path, names[i]))
    requires naming(Join(path, names[i]), ordinal).Err?
    ensures WalkEntries(fs, path, names, i, ordinal, naming) ==
      Run(fs, [], Some(MissingExtension(Join(path, names[i]))))
  {
  }
}
