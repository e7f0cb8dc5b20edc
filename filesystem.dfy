/**
 * The part of the operating system the program touches: a namespace of
 * paths, each a directory (with its listing, in `os.listdir` order), a
 * regular file, or some other kind of entry; and the two calls that change
 * it, `os.rmdir` and `os.rename`, with the ways they fail.
 */
module FileSystem {
  import opened Outcomes
  import opened Paths

  /** A name as a directory listing holds it: not empty, no '/'. */
  type Name = s: string | s != [] && '/' !in s witness "a"

  datatype Node =
    | Directory(entries: seq<Name>)
    | RegularFile
    | Special  // a fifo, socket or device: neither a file nor a directory

  /**
   * The namespace, keyed by path string, and the ways the operating system
   * refuses a call: `denied` holds the paths it will not remove or rename
   * for lack of permission, `unreadable` the directories it will not list,
   * and `stuck` the paths whose removal fails for another reason (a busy
   * mount point, a read-only file system).
   */
  datatype Fs = Fs(nodes: map<string, Node>, denied: set<string>, unreadable: set<string>, stuck: set<string>)

  /** Why a walk stops; each is an exception that the program lets escape. */
  datatype Failure =
    | ListFailed(path: string)         // os.listdir raised on the starting path
    | MissingExtension(path: string)   // get_new_name's ValueError
    | RemoveDenied(path: string)       // PermissionError from os.rmdir
    | RemoveFailed(path: string)       // any other error from os.rmdir
    | DestinationExists(path: string)  // FileExistsError from os.rename, naming the destination
    | RenameFailed(path: string)       // any other error from os.rename, naming the walked directory

  datatype Kind = Absent | DirectoryKind | FileKind | SpecialKind

  function KindOf(nodes: map<string, Node>, p: string): Kind {
    if p !in nodes then Absent
    else match nodes[p]
      case Directory(_) => DirectoryKind
      case RegularFile => FileKind
      case Special => SpecialKind
  }

  /** `os.path.isdir` */
  predicate IsDir(fs: Fs, p: string) {
    KindOf(fs.nodes, p) == DirectoryKind
  }

  /** `os.path.isfile` */
  predicate IsFile(fs: Fs, p: string) {
    KindOf(fs.nodes, p) == FileKind
  }

  function Dirs(nodes: map<string, Node>): set<string> {
    set p | p in nodes && nodes[p].Directory?
  }

  /** Kinds agree everywhere except at the paths in `changed`. */
  ghost predicate SameKindsExcept(m: map<string, Node>, m': map<string, Node>, changed: set<string>) {
    forall p :: p !in changed ==> KindOf(m', p) == KindOf(m, p)
  }

  function Without(entries: seq<Name>, n: string): (r: seq<Name>)
    ensures forall x :: x in r <==> x in entries && x != n
  {
    if entries == [] then []
    else if entries[0] == n then Without(entries[1..], n)
    else [entries[0]] + Without(entries[1..], n)
  }

  function Replaced(entries: seq<Name>, a: string, b: Name): (r: seq<Name>)
    ensures |r| == |entries|
    ensures forall i :: 0 <= i < |r| ==> r[i] == if entries[i] == a then b else entries[i]
  {
    seq(|entries|, i requires 0 <= i < |entries| => if entries[i] == a then b else entries[i])
  }

  /** Drops `n` from the listing of `dir`, if `dir` is a directory. */
  function Unlisted(nodes: map<string, Node>, dir: string, n: string): (r: map<string, Node>)
    ensures r.Keys == nodes.Keys
    ensures SameKindsExcept(nodes, r, {})
  {
    if dir in nodes && nodes[dir].Directory?
    then nodes[dir := Directory(Without(nodes[dir].entries, n))]
    else nodes
  }

  /** Adds `n` at the end of the listing of `dir`, if `dir` is a directory. */
  function Listed(nodes: map<string, Node>, dir: string, n: Name): (r: map<string, Node>)
    ensures r.Keys == nodes.Keys
    ensures SameKindsExcept(nodes, r, {})
  {
    if dir in nodes && nodes[dir].Directory?
    then nodes[dir := Directory(nodes[dir].entries + [n])]
    else nodes
  }

  /** Renames `a` to `b` in the listing of `dir`, keeping its position. */
  function Relisted(nodes: map<string, Node>, dir: string, a: string, b: Name): (r: map<string, Node>)
    ensures r.Keys == nodes.Keys
    ensures SameKindsExcept(nodes, r, {})
  {
    if dir in nodes && nodes[dir].Directory?
    then nodes[dir := Directory(Replaced(nodes[dir].entries, a, b))]
    else nodes
  }

  /**
   * `os.rmdir(path)`: only an empty directory can go; the path disappears
   * and so does its name from its parent's listing.
   */
  function Removal(fs: Fs, path: string): (r: Result<Fs, Failure>)
    ensures r.Ok? <==> path !in fs.denied && path !in fs.stuck && IsDir(fs, path) && fs.nodes[path].entries == []
    ensures r.Err? ==> r.error == if path in fs.denied then RemoveDenied(path) else RemoveFailed(path)
    ensures r.Ok? ==> r.value == fs.(nodes := r.value.nodes)
    ensures r.Ok? ==> KindOf(r.value.nodes, path) == Absent
    ensures r.Ok? ==> SameKindsExcept(fs.nodes, r.value.nodes, {path})
  {
    if path in fs.denied then Err(RemoveDenied(path))
    else if path in fs.stuck || !IsDir(fs, path) || fs.nodes[path].entries != [] then Err(RemoveFailed(path))
    else Ok(fs.(nodes := Unlisted(fs.nodes - {path}, Dirname(path), Basename(path))))
  }

  /** Moves the file at `src` to `dst` and updates the listings involved. */
  function Moved(nodes: map<string, Node>, src: string, dst: string): (r: map<string, Node>)
    requires Basename(dst) != []
    ensures KindOf(r, src) == Absent || src == dst
    ensures KindOf(r, dst) == FileKind
    ensures SameKindsExcept(nodes, r, {src, dst})
  {
    var m := (nodes - {src})[dst := RegularFile];
    var from, to := Dirname(src), Dirname(dst);
    if from == to then Relisted(m, to, Basename(src), Basename(dst))
    else Listed(Unlisted(m, from, Basename(src)), to, Basename(dst))
  }

  /**
   * `os.rename(src, dst)` for a regular file `src`, where an existing
   * destination is an error. Any other refusal (no permission, no
   * directory to put `dst` in, an empty final component) is reported
   * against `dir`, the directory being walked, as the program does.
   */
  function Renaming(fs: Fs, src: string, dst: string, dir: string): (r: Result<Fs, Failure>)
    requires IsFile(fs, src)
    ensures r.Err? && r.error == DestinationExists(dst) <==> dst in fs.nodes
    ensures r.Ok? <==>
      dst !in fs.nodes && src !in fs.denied && Basename(dst) != [] && IsDir(fs, Dirname(dst))
    ensures r.Err? && dst !in fs.nodes ==> r.error == RenameFailed(dir)
    ensures r.Ok? ==> r.value == fs.(nodes := r.value.nodes)
    ensures r.Ok? ==> KindOf(r.value.nodes, src) == Absent && IsFile(r.value, dst)
    ensures r.Ok? ==> SameKindsExcept(fs.nodes, r.value.nodes, {src, dst})
  {
    if dst in fs.nodes then Err(DestinationExists(dst))
    else if src in fs.denied || Basename(dst) == [] || !IsDir(fs, Dirname(dst)) then Err(RenameFailed(dir))
    else Ok(fs.(nodes := Moved(fs.nodes, src, dst)))
  }

  /** Where kinds agree, so do the sets of directories. */
  lemma DirsOfSameKinds(m: map<string, Node>, m': map<string, Node>, changed: set<string>)
    requires SameKindsExcept(m, m', changed)
    ensures Dirs(m') - changed == Dirs(m) - changed
  {
    forall p | p !in changed ensures p in Dirs(m') <==> p in Dirs(m) {
      assert KindOf(m', p) == KindOf(m, p);
    }
  }

  /** Turning one file path into another leaves the directories as they were. */
  lemma DirsAfterMove(m: map<string, Node>, m': map<string, Node>, src: string, dst: string)
    requires SameKindsExcept(m, m', {src, dst})
    requires KindOf(m, src) == FileKind && KindOf(m, dst) == Absent
    requires KindOf(m', src) == Absent && KindOf(m', dst) == FileKind
    ensures Dirs(m') == Dirs(m)
  {
    DirsOfSameKinds(m, m', {src, dst});
    assert Dirs(m') == Dirs(m') - {src, dst};
    assert Dirs(m) == Dirs(m) - {src, dst};
  }

  /** Renaming never creates or removes a directory. */
  lemma RenamingKeepsDirs(fs: Fs, src: string, dst: string, dir: string)
    requires IsFile(fs, src)
    requires Renaming(fs, src, dst, dir).Ok?
    ensures Dirs(Renaming(fs, src, dst, dir).value.nodes) == Dirs(fs.nodes)
  {
    var m := Renaming(fs, src, dst, dir).value.nodes;
    DirsAfterMove(fs.nodes, m, src, dst);
  }

  /** Removing a directory takes exactly that directory away. */
  lemma RemovalDirs(fs: Fs, path: string)
    requires Removal(fs, path).Ok?
    ensures Dirs(Removal(fs, path).value.nodes) == Dirs(fs.nodes) - {path}
  {
    var m := Removal(fs, path).value.nodes;
    DirsOfSameKinds(fs.nodes, m, {path});
    assert KindOf(m, path) == Absent;
  }
}
