# numb-rename, modelled in Dafny

numb-rename walks a directory tree and gives every regular file a numbered
name. In each directory, the files are named `1.<ext>`, `2.<ext>`, … in the
order the operating system lists them, and the extension is lower-cased.
Subdirectories are walked the same way, each with its own counter, and a
directory that is empty when it is listed is deleted.

This project models the two functions that do that work, from `main.py`:

- `get_new_name` is a pure rewrite of a path. It becomes the function
  `Paths.GetNewName`, built from models of `os.path.dirname` and
  `os.path.join`, `str.split('.')[-1]`, `str.lower` and decimal formatting
  (module `Paths`, `paths.dfy`). The path functions follow the POSIX rules
  of Python's `os.path`.
- `recur` changes the file system step by step, so it is imperative code:
  the method `Disk.Disk.Recur`, on a class that owns the file system state
  (`disk.dfy`). Its loop is proved to compute the function `Walk.WalkDir`
  (`walk.dfy`). That function gives the state the walk leaves, the log of
  removals, renames and skips it made in order, and the exception it stops
  with. The walk's properties are proved about `WalkDir`
  (`walk_properties.dfy`, `ordinals.dfy`).

The file system (`filesystem.dfy`) is a map from path strings to nodes.
A node is a directory holding its listing in `os.listdir` order, a regular
file, or some other kind of entry. Three sets of paths say where the
operating system refuses a call: the entries it will not remove or rename
for lack of permission, the directories it will not list, and the paths
whose removal fails for another reason (a busy mount point, a read-only
file system). `os.rmdir` and `os.rename` are the functions `Removal` and
`Renaming`; unlike POSIX, `Renaming` refuses to replace an existing
destination. Each exception the
program lets escape is a `Failure` value:

- `ListFailed`: `os.listdir` raised, on a path that is not a directory or on a directory it may not read.
- `MissingExtension`: `get_new_name` raised its `ValueError`.
- `RemoveDenied`: `os.rmdir` raised `PermissionError`.
- `RemoveFailed`: `os.rmdir` failed for any other reason.
- `DestinationExists`: `os.rename` raised `FileExistsError`.
- `RenameFailed`: `os.rename` failed for any other reason, reported against the walked directory, as `main.py:86` does.

The walk is written against any naming rule (`Walk.Naming`). `Disk.Disk.Recur`
and the lemmas about numbering use `GetNewName`, so what the walk does with
a name is proved apart from how the name is made.

## Model

| member | source | states |
|---|---|---|
| Paths.GetNewName | main.py:41-46 | The result is an error, carrying the path, exactly when there is no '.' anywhere in the whole path, directory part included. |
| Paths.NewNameExtension | main.py:44-46 | When the path has a '.', the extension of the new name is the old extension lower-cased: the text after the last '.' of the whole path. |
| Paths.NewNameLocation | main.py:44-46 | When the extension holds no '/', the new name has the same dirname as the old one, and its basename is the decimal ordinal, '.', and the lower-cased extension. |
| Paths.NewNameOfEntry | main.py:41-46 | For an entry `n` with a '.', joined to a directory path, the new name is that directory joined with `<num>.<lower ext>`. |
| Paths.KeepsNameIff | main.py:75-79 | A file is skipped (its new name equals its path) exactly when its name has a '.' and already reads `<num>.<ext>`, with num its ordinal and ext in lower case. |
| Paths.DottedDirectoryMovesFile | main.py:41-46 | The '.' test looks at the whole path: `get_new_name("a.b/c", 1)` is `"a.b/1.b/c"`, whose dirname is not that of `"a.b/c"`. |
| Paths.ExtensionShorter | main.py:41-44 | A '.' anywhere in a string is exactly what makes the text after its last '.' shorter than the whole string. |
| Paths.ExtensionOfSuffix | main.py:44 | When the tail of a path holds a '.', the text after the last '.' of the whole path is that of the tail alone, so a dotted directory name does not change a dotted file's extension. |
| Paths.DirnameOfJoin | main.py:45-46 | `dirname(join(d, n)) == d` and `basename(join(d, n)) == n`, for a directory path without a trailing '/' (or made only of '/') and a name without '/'. |
| Paths.JoinCancel | main.py:69 | Joining one directory with two names gives one path only when the names are equal. |
| Paths.LowerKeepsSeparators | main.py:44 | Lower-casing keeps '.' and '/' where they were and leaves no upper-case ASCII letter. |
| Paths.DecimalRoundTrip | main.py:46 | The decimal text of an ordinal parses back to that ordinal. |
| Paths.DecimalInjective | main.py:46 | Different ordinals give different decimal texts. |
| Paths.NumberedNameInjective | main.py:46 | Two numbered names `<num>.<ext>` are equal only for equal ordinals, whatever the extensions: the digits end at the first '.'. |
| Paths.NewNameUnique | main.py:28-31 | Two files with the same dirname get the same new name only under the same ordinal: each number is unique within a directory. |
| FileSystem.Removal | main.py:57-62 | `os.rmdir` succeeds exactly on an empty directory that it is permitted to remove and that is not stuck for another reason, and then only that path disappears. A refused removal is `PermissionError`; any other failure is the generic error. |
| FileSystem.Renaming | main.py:81-86 | An existing destination is `FileExistsError` naming the destination. Otherwise the rename succeeds exactly when it is permitted and the destination's directory exists, and then only the source and destination change kind. Any other failure names the walked directory. |
| FileSystem.RenamingKeepsDirs | main.py:81-82 | Renaming a regular file leaves the set of directories as it was. |
| FileSystem.RemovalDirs | main.py:57-58 | Removing a directory takes exactly that path out of the set of directories. |
| Walk.WalkDir | main.py:51-64 | A walk never creates a directory and never changes what the operating system refuses. |
| Walk.WalkEntries | main.py:66-86 | The loop over a listing never creates a directory and never changes what the operating system refuses. |
| Walk.StepIntoListing | main.py:52-54 | Unfolding of `WalkDir`: a readable directory listed non-empty goes into the loop with the counter at 1. |
| Walk.StepIntoDirectory | main.py:71-72 | Unfolding of `WalkEntries`: a subdirectory is walked before the next entry, without moving the counter; the loop goes on from the state that walk leaves, and its failure ends the loop. |
| Walk.StepOverFile | main.py:74-86 | Unfolding of `WalkEntries`: a regular file takes the current ordinal, and the counter moves on before the skip test. It is skipped when its new name is its own path; otherwise it is renamed, and a failed rename ends the walk. |
| Walk.StepSkip | main.py:76-79 | Unfolding of `WalkEntries`: a skipped file is logged with its ordinal, and the next file gets the following ordinal. |
| Walk.StepRename | main.py:81-86 | Unfolding of `WalkEntries`: a rename that fails ends the walk with that error and the state as it was; one that succeeds is logged, and the loop goes on from the new state with the next ordinal. |
| Walk.StepNoExtension | main.py:41-42 | Unfolding of `WalkEntries`: a file the naming rule rejects ends the walk with `MissingExtension`, naming that file. |
| Walk.StepOverOther | main.py:68-74 | Unfolding of `WalkEntries`: an entry that is neither a directory nor a regular file is passed over without taking an ordinal. |
| Disk.Disk.ListDir | main.py:52 | The listing is the directory's entries in order; listing anything but a readable directory fails. |
| Disk.Disk.Rmdir | main.py:57-62 | The disk changes as `Removal` says, or not at all when it fails, and the failure is reported. |
| Disk.Disk.Rename | main.py:81-86 | The disk changes as `Renaming` says, or not at all when it fails, and the failure is reported. |
| Disk.Disk.Recur | main.py:51-86 | The loop leaves the disk exactly in the state `WalkDir` describes, including the changes made before an error, and stops with the same error. |
| WalkProperties.RemovedDirsOnlyRemoved | main.py:57-58 | A directory is in the removed set of a log exactly when the log has its removal. |
| WalkProperties.WalkDirRemovesOnly | main.py:51-86 | Directories are never renamed or created: the directories after a walk are those before it minus those the walk logged as removed. |
| WalkProperties.WalkDirEvents | main.py:51-86 | Every event of a walk is in the starting directory or in a directory inside it, and every rename and skip does what the naming rule said. A rename never targets the file's own path. |
| WalkProperties.WalkEntriesEvents | main.py:66-86 | The only events of a directory's own loop that are tagged with that directory are its renames and skips. |
| WalkProperties.EmptyDirectoryRemoved | main.py:52-64 | An empty directory is removed and nothing else happens, unless the operating system refuses. Each refusal has its own error naming the directory: it may not be listed, its removal is not permitted, or its removal fails for another reason. |
| WalkProperties.NonEmptyDirectoryKept | main.py:52-54 | A directory listed non-empty is still a directory after its walk and is never logged as removed, even when the walk emptied it. |
| Ordinals.NewNameWithin | main.py:44-46 | For an entry of a directory, `get_new_name` puts the destination inside that directory. |
| Ordinals.SiblingsApart | main.py:69 | Two different entries of one listing are not inside one another. |
| Ordinals.WalkDirFrame | main.py:51-86 | No path outside the directory a walk starts from appears, disappears or changes kind. The parent's listing does lose the start directory when the walk removes it. |
| Ordinals.WalkEntriesFrame | main.py:66-86 | No path outside the directory appears, disappears or changes kind during the loop over its listing. |
| Ordinals.OwnFollowsListing | main.py:66-86 | From position i with the counter at c, the loop's renames and skips are the regular files of the rest of the listing, in order, paired with c, c+1, …. The list is cut short only where the walk fails. |
| Ordinals.OrdinalsFollowListing | main.py:66-79 | The k-th regular file of the listing (counting from 1) of a readable directory is renamed or skipped with ordinal k. Subdirectories and other entries take no ordinal, and a skipped file uses up its ordinal. All files are covered when the walk does not fail. |
| Ordinals.NumberedNameKept | main.py:75-79 | A file already named `<num>.<lower ext>` keeps its name under ordinal num. |
| Ordinals.AllSkipped | main.py:66-79 | From position i on, when every entry is a regular file already numbered by its position, the loop skips them all, changes nothing, and does not fail. |
| Ordinals.NumberedDirectoryUntouched | main.py:66-79 | A second run over a readable directory that the first run numbered, with the listing in the same order, leaves it exactly as it is: every file is skipped and nothing fails. |

## Left out

- The real operating system is not part of this model. `os.listdir`, `os.path.isdir`, `os.path.isfile`, `os.rmdir` and `os.rename` act on the modelled state. The order of a listing is whatever the state holds; nothing sorts it.
- `os.rename` onto an existing path is modelled as `FileExistsError`, as on systems that refuse it. POSIX would replace a regular file silently; that behaviour is not modelled.
- The text of the exception messages and of the warning `print` are not modelled. Each exception is the `Failure` constructor for its kind, carrying the path it names; tracebacks and exception chaining are not modelled.
- `main`, `TARGET`, `argv` and the final "Done!" are not modelled. A run of the program is `Disk.Disk.Recur` on the target path.
- Paths are exact strings: no normalisation of `//`, `.` or `..`, and no symbolic links. The lemmas relating `dirname` and `join` need a directory path without a trailing '/'.
- Disk.Disk.Recur: the starting path must be written the way `dirname` writes it, without a trailing '/'. The namespace is looked up by exact string, so for `p/` the model finds no directory `p` to rename into and reports a failed rename, where the program renames the file.
- `str.lower` is modelled on the ASCII letters only.
- Zero-padding of ordinals and filtering by media type are not in the program and are not modelled.
- Ordinals.OrdinalsFollowListing: assumes the listing names no entry twice and names only existing paths, which the operating system guarantees for `os.listdir`.
- Ordinals.NumberedDirectoryUntouched: covers a directory holding only regular files. With subdirectories, the counter still numbers only the files, but that case is not stated.
