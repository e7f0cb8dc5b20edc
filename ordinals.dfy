/**
 * How `recur` numbers the files of one directory: the counter starts at 1
 * and moves on at each regular file of the listing, in listing order, and
 * at nothing else. Stated against the state before the walk, which needs
 * the fact that walking a subdirectory, or renaming a file next to its old
 * name, leaves the kinds of the other entries of the listing alone.
 */
module Ordinals {
  import opened Outcomes
  import opened Paths
  import opened FileSystem
  import opened Walk
  import opened WalkProperties

  /** An entry's path is a fixed prefix of its directory followed by the entry's name. */
  lemma JoinPrefix(p: string, n: Name) returns (pre: string)
    ensures Join(p, n) == pre + n
    ensures pre == if p == [] || p[|p| - 1] == '/' then p else p + "/"
  {
    pre := if p == [] || p[|p| - 1] == '/' then p else p + "/";
  }

  /** Two different entries of one listing are not inside one another. */
  lemma SiblingsApart(p: string, m: Name, n: Name)
    requires m != n
    ensures !Within(Join(p, m), Join(p, n))
  {
    var pre := JoinPrefix(p, m);
    var pre' := JoinPrefix(p, n);
    NamesApart(pre, m, n);
  }

  lemma NamesApart(pre: string, m: Name, n: Name)
    requires m != n
    ensures !Within(pre + m, pre + n)
  {
    var c, x := pre + m, pre + n;
    assert c[|pre|..] == m && x[|pre|..] == n;
    if |x| > |c| && x[..|c|] == c {
      assert x[|c|] == n[|m|];
      assert c[|c| - 1] == m[|m| - 1];
    }
  }

  lemma JoinDirForm(p: string, n: Name)
    ensures DirForm(Join(p, n))
  {
    var c := Join(p, n);
    assert c[|c| - |n|..] == n;
    assert c[|c| - 1] == n[|n| - 1];
  }

  /** The destination of a rename lies inside the directory being walked. */
  lemma NewNameWithin(p: string, n: Name, ordinal: nat, dst: string)
    requires DirForm(p)
    requires GetNewName(Join(p, n), ordinal) == Ok(dst)
    ensures Within(p, dst)
  {
    var c := Join(p, n);
    DirnameOfJoin(p, n);
    var b := NumberedName(ordinal, Extension(c));
    assert dst == Join(p, b);
    assert b[0] != '/' by { assert IsDigit(Decimal(ordinal)[0]); }
    JoinWithin(p, b);
  }

  /** Kinds agree at every path outside the directory `c`. */
  ghost predicate SameKindsOutside(m: map<string, Node>, m': map<string, Node>, c: string) {
    forall k :: !Within(c, k) ==> KindOf(m', k) == KindOf(m, k)
  }

  /**
   * A walk of `path` changes nothing outside `path`: every removal and every
   * rename it makes, at any depth, is inside it.
   */
  lemma {:induction false} WalkDirFrame(fs: Fs, path: string)
    requires DirForm(path)
    ensures SameKindsOutside(fs.nodes, WalkDir(fs, path, GetNewName).fs.nodes, path)
    decreases Deeper(fs.nodes, path), 1
  {
    if IsDir(fs, path) && path !in fs.unreadable && fs.nodes[path].entries != [] {
      WalkEntriesFrame(fs, path, fs.nodes[path].entries, 0, 1);
    }
  }

  lemma {:induction false} WalkEntriesFrame(fs: Fs, path: string, names: seq<Name>, i: nat, ordinal: nat)
    requires DirForm(path)
    requires i <= |names|
    ensures SameKindsOutside(fs.nodes, WalkEntries(fs, path, names, i, ordinal, GetNewName).fs.nodes, path)
    decreases Deeper(fs.nodes, path), 0, |names| - i, 2
  {
    if i < |names| {
      var child := Join(path, names[i]);
      JoinWithin(path, names[i]);
      if IsDir(fs, child) {
        DeeperChild(fs.nodes, path, child);
        JoinDirForm(path, names[i]);
        WalkDirFrame(fs, child);
        var sub := WalkDir(fs, child, GetNewName);
        StepIntoDirectory(fs, path, names, i, ordinal, GetNewName);
        forall k | !Within(path, k) ensures KindOf(sub.fs.nodes, k) == KindOf(fs.nodes, k) {
          if Within(child, k) {
            WithinTrans(path, child, k);
          }
        }
        if sub.failure.None? {
          DeeperShrinks(fs.nodes, sub.fs.nodes, path);
          WalkEntriesFrame(sub.fs, path, names, i + 1, ordinal);
        }
      } else if IsFile(fs, child) {
        var named := GetNewName(child, ordinal);
        if named.Err? {
          StepNoExtension(fs, path, names, i, ordinal, GetNewName);
        } else if named.value == child {
          StepSkip(fs, path, names, i, ordinal, GetNewName);
          WalkEntriesFrame(fs, path, names, i + 1, ordinal + 1);
        } else {
          RenameStepFrame(fs, path, names, i, ordinal, named.value);
        }
      } else {
        StepOverOther(fs, path, names, i, ordinal, GetNewName);
        WalkEntriesFrame(fs, path, names, i + 1, ordinal);
      }
    }
  }

  lemma {:induction false} RenameStepFrame(fs: Fs, path: string, names: seq<Name>, i: nat, ordinal: nat, dst: string)
    requires DirForm(path)
    requires i < |names| && IsFile(fs, Join(path, names[i]))
    requires GetNewName(Join(path, names[i]), ordinal) == Ok(dst) && dst != Join(path, names[i])
    ensures SameKindsOutside(fs.nodes, WalkEntries(fs, path, names, i, ordinal, GetNewName).fs.nodes, path)
    decreases Deeper(fs.nodes, path), 0, |names| - i, 1
  {
    var child := Join(path, names[i]);
    StepRename(fs, path, names, i, ordinal, dst, GetNewName);
    if Renaming(fs, child, dst, path).Ok? {
      var after := Renaming(fs, child, dst, path).value;
      RenamingKeepsDirs(fs, child, dst, path);
      assert Deeper(after.nodes, path) == Deeper(fs.nodes, path);
      JoinWithin(path, names[i]);
      NewNameWithin(path, names[i], ordinal, dst);
      WalkEntriesFrame(after, path, names, i + 1, ordinal + 1);
      FrameAfterMove(fs.nodes, after.nodes, WalkEntries(after, path, names, i + 1, ordinal + 1, GetNewName).fs.nodes, path, child, dst);
    }
  }

  lemma FrameAfterMove(m0: map<string, Node>, m1: map<string, Node>, m2: map<string, Node>, path: string, src: string, dst: string)
    requires SameKindsExcept(m0, m1, {src, dst}) && Within(path, src) && Within(path, dst)
    requires SameKindsOutside(m1, m2, path)
    ensures SameKindsOutside(m0, m2, path)
  {
    forall k | !Within(path, k) ensures KindOf(m2, k) == KindOf(m0, k) {
      assert k != src && k != dst;
    }
  }

  /** The regular files of a listing, in listing order, as the state says. */
  function FileEntries(fs: Fs, path: string, names: seq<Name>): seq<string> {
    if names == [] then []
    else
      var child := Join(path, names[0]);
      (if IsFile(fs, child) then [child] else []) + FileEntries(fs, path, names[1..])
  }

  /** Pairs each path with its ordinal, counting from `first`. */
  function Numbered(files: seq<string>, first: nat): (r: seq<(string, nat)>)
    ensures |r| == |files|
  {
    seq(|files|, k requires 0 <= k < |files| => (files[k], first + k))
  }

  /** The renames and skips of directory `path`, in order, as (file, ordinal). */
  function Own(log: seq<Event>, path: string): seq<(string, nat)> {
    if log == [] then []
    else
      var e := log[0];
      (if e.dir == path && !e.Removed? then [(e.src, e.ordinal)] else []) + Own(log[1..], path)
  }

  lemma {:induction false} OwnConcat(a: seq<Event>, b: seq<Event>, path: string)
    ensures Own(a + b, path) == Own(a, path) + Own(b, path)
  {
    if a == [] {
      assert a + b == b;
    } else {
      assert (a + b)[0] == a[0];
      assert (a + b)[1..] == a[1..] + b;
      OwnConcat(a[1..], b, path);
    }
  }

  /** A walk of a subdirectory has no renames or skips of its own in `path`. */
  lemma {:induction false} OwnOfDeeper(log: seq<Event>, path: string, child: string)
    requires |child| > |path|
    requires forall e :: e in log ==> Within(child, e.dir)
    ensures Own(log, path) == []
  {
    if log != [] {
      assert log[0] in log;
      OwnOfDeeper(log[1..], path, child);
    }
  }

  lemma {:induction false} FileEntriesSameKinds(fs: Fs, fs': Fs, path: string, names: seq<Name>)
    requires forall j :: 0 <= j < |names| ==>
      KindOf(fs'.nodes, Join(path, names[j])) == KindOf(fs.nodes, Join(path, names[j]))
    ensures FileEntries(fs', path, names) == FileEntries(fs, path, names)
  {
    if names != [] {
      FileEntriesSameKinds(fs, fs', path, names[1..]);
    }
  }

  lemma NumberedCons(c: string, files: seq<string>, first: nat)
    ensures Numbered([c] + files, first) == [(c, first)] + Numbered(files, first + 1)
  {
  }

  predicate IsPrefix<T(==)>(a: seq<T>, b: seq<T>) {
    |a| <= |b| && b[..|a|] == a
  }

  /** The renames and skips of `path` in run `r` are the files `files`
      numbered from `ordinal`, cut short only if the run failed. */
  ghost predicate KeepsPlan(r: Run, path: string, files: seq<string>, ordinal: nat) {
    var own := Own(r.log, path);
    var plan := Numbered(files, ordinal);
    IsPrefix(own, plan) && (r.failure.None? ==> own == plan)
  }

  /** One more numbered file in front of a run that keeps to the plan. */
  lemma PlanPrepend(ev: Event, r: Run, path: string, files: seq<string>, ordinal: nat)
    requires ev.dir == path && !ev.Removed? && ev.ordinal == ordinal
    requires KeepsPlan(r, path, files, ordinal + 1)
    ensures KeepsPlan(After([ev], r), path, [ev.src] + files, ordinal)
  {
    OwnConcat([ev], r.log, path);
    assert Own([ev], path) == [(ev.src, ordinal)];
    NumberedCons(ev.src, files, ordinal);
  }

  /** The facts about a listing that the operating system guarantees from
      position `i` on: no name twice, and every listed entry exists. */
  ghost predicate ListingFrom(fs: Fs, path: string, names: seq<Name>, i: nat) {
    && (forall a, b :: i <= a < b < |names| ==> names[a] != names[b])
    && (forall j :: i <= j < |names| ==> Join(path, names[j]) in fs.nodes)
  }

  /** What the next step of the loop changes keeps the rest of the listing as it was. */
  lemma RestUnchanged(fs: Fs, fs': Fs, path: string, names: seq<Name>, i: nat)
    requires i < |names| && ListingFrom(fs, path, names, i)
    requires forall j :: i < j < |names| ==>
      KindOf(fs'.nodes, Join(path, names[j])) == KindOf(fs.nodes, Join(path, names[j]))
    ensures ListingFrom(fs', path, names, i + 1)
    ensures FileEntries(fs', path, names[i + 1..]) == FileEntries(fs, path, names[i + 1..])
  {
    FileEntriesSameKinds(fs, fs', path, names[i + 1..]);
  }

  /** Renaming entry `i` to a path that did not exist leaves the rest of the listing alone. */
  lemma ListingAfterMove(fs: Fs, after: Fs, path: string, names: seq<Name>, i: nat, dst: string)
    requires i < |names| && ListingFrom(fs, path, names, i)
    requires dst !in fs.nodes && SameKindsExcept(fs.nodes, after.nodes, {Join(path, names[i]), dst})
    ensures ListingFrom(after, path, names, i + 1)
    ensures FileEntries(after, path, names[i + 1..]) == FileEntries(fs, path, names[i + 1..])
  {
    forall j | i < j < |names|
      ensures KindOf(after.nodes, Join(path, names[j])) == KindOf(fs.nodes, Join(path, names[j]))
    {
      if Join(path, names[j]) == Join(path, names[i]) {
        JoinCancel(path, names[j], names[i]);
      }
    }
    RestUnchanged(fs, after, path, names, i);
  }

  /**
   * The loop gives the k-th regular file of the listing (from position
   * `i`, counting from 0) the ordinal `ordinal + k`: its renames and skips,
   * in order, are the files of the listing paired with consecutive
   * ordinals, cut short where the walk fails. Directories and other
   * entries take no ordinal.
   */
  lemma {:induction false} OwnFollowsListing(fs: Fs, path: string, names: seq<Name>, i: nat, ordinal: nat)
    requires DirForm(path)
    requires i <= |names| && ListingFrom(fs, path, names, i)
    ensures KeepsPlan(WalkEntries(fs, path, names, i, ordinal, GetNewName), path, FileEntries(fs, path, names[i..]), ordinal)
    decreases |names| - i, 2
  {
    if i < |names| {
      var child := Join(path, names[i]);
      assert names[i..][1..] == names[i + 1..];
      if IsDir(fs, child) {
        DirectoryStepOwn(fs, path, names, i, ordinal);
      } else if IsFile(fs, child) {
        var named := GetNewName(child, ordinal);
        if named.Err? {
          StepNoExtension(fs, path, names, i, ordinal, GetNewName);
        } else if named.value == child {
          SkipStepOwn(fs, path, names, i, ordinal);
        } else {
          RenameStepOwn(fs, path, names, i, ordinal, named.value);
        }
      } else {
        StepOverOther(fs, path, names, i, ordinal, GetNewName);
        assert FileEntries(fs, path, names[i..]) == FileEntries(fs, path, names[i + 1..]);
        RestUnchanged(fs, fs, path, names, i);
        OwnFollowsListing(fs, path, names, i + 1, ordinal);
      }
    }
  }

  lemma {:induction false} DirectoryStepOwn(fs: Fs, path: string, names: seq<Name>, i: nat, ordinal: nat)
    requires DirForm(path)
    requires i < |names| && ListingFrom(fs, path, names, i) && IsDir(fs, Join(path, names[i]))
    ensures KeepsPlan(WalkEntries(fs, path, names, i, ordinal, GetNewName), path, FileEntries(fs, path, names[i..]), ordinal)
    decreases |names| - i, 1
  {
    var child := Join(path, names[i]);
    assert names[i..][1..] == names[i + 1..];
    assert FileEntries(fs, path, names[i..]) == FileEntries(fs, path, names[i + 1..]);
    var sub := WalkDir(fs, child, GetNewName);
    StepIntoDirectory(fs, path, names, i, ordinal, GetNewName);
    WalkDirEvents(fs, child, GetNewName);
    OwnOfDeeper(sub.log, path, child);
    if sub.failure.None? {
      AfterSubdirectoryOwn(fs, path, names, i, ordinal);
    }
  }

  /** After a subdirectory's walk succeeds, the rest of the loop keeps to the plan. */
  lemma {:induction false} AfterSubdirectoryOwn(fs: Fs, path: string, names: seq<Name>, i: nat, ordinal: nat)
    requires DirForm(path)
    requires i < |names| && ListingFrom(fs, path, names, i) && IsDir(fs, Join(path, names[i]))
    requires WalkDir(fs, Join(path, names[i]), GetNewName).failure.None?
    requires Own(WalkDir(fs, Join(path, names[i]), GetNewName).log, path) == []
    ensures var sub := WalkDir(fs, Join(path, names[i]), GetNewName);
      KeepsPlan(After(sub.log, WalkEntries(sub.fs, path, names, i + 1, ordinal, GetNewName)), path, FileEntries(fs, path, names[i + 1..]), ordinal)
    decreases |names| - i, 0
  {
    var child := Join(path, names[i]);
    var sub := WalkDir(fs, child, GetNewName);
    JoinDirForm(path, names[i]);
    WalkDirFrame(fs, child);
    forall j | i < j < |names|
      ensures KindOf(sub.fs.nodes, Join(path, names[j])) == KindOf(fs.nodes, Join(path, names[j]))
    {
      SiblingsApart(path, names[i], names[j]);
    }
    RestUnchanged(fs, sub.fs, path, names, i);
    OwnFollowsListing(sub.fs, path, names, i + 1, ordinal);
    OwnConcat(sub.log, WalkEntries(sub.fs, path, names, i + 1, ordinal, GetNewName).log, path);
  }

  lemma {:induction false} SkipStepOwn(fs: Fs, path: string, names: seq<Name>, i: nat, ordinal: nat)
    requires DirForm(path)
    requires i < |names| && ListingFrom(fs, path, names, i) && IsFile(fs, Join(path, names[i]))
    requires GetNewName(Join(path, names[i]), ordinal) == Ok(Join(path, names[i]))
    ensures KeepsPlan(WalkEntries(fs, path, names, i, ordinal, GetNewName), path, FileEntries(fs, path, names[i..]), ordinal)
    decreases |names| - i, 1
  {
    var child := Join(path, names[i]);
    assert names[i..][1..] == names[i + 1..];
    var files := FileEntries(fs, path, names[i + 1..]);
    assert FileEntries(fs, path, names[i..]) == [child] + files;
    StepSkip(fs, path, names, i, ordinal, GetNewName);
    RestUnchanged(fs, fs, path, names, i);
    OwnFollowsListing(fs, path, names, i + 1, ordinal + 1);
    PlanPrepend(Skipped(path, child, ordinal), WalkEntries(fs, path, names, i + 1, ordinal + 1, GetNewName), path, files, ordinal);
  }

  lemma {:induction false} RenameStepOwn(fs: Fs, path: string, names: seq<Name>, i: nat, ordinal: nat, dst: string)
    requires DirForm(path)
    requires i < |names| && ListingFrom(fs, path, names, i) && IsFile(fs, Join(path, names[i]))
    requires GetNewName(Join(path, names[i]), ordinal) == Ok(dst) && dst != Join(path, names[i])
    ensures KeepsPlan(WalkEntries(fs, path, names, i, ordinal, GetNewName), path, FileEntries(fs, path, names[i..]), ordinal)
    decreases |names| - i, 1
  {
    var child := Join(path, names[i]);
    StepRename(fs, path, names, i, ordinal, dst, GetNewName);
    if Renaming(fs, child, dst, path).Ok? {
      var after := Renaming(fs, child, dst, path).value;
      assert names[i..][1..] == names[i + 1..];
      var files := FileEntries(fs, path, names[i + 1..]);
      assert FileEntries(fs, path, names[i..]) == [child] + files;
      ListingAfterMove(fs, after, path, names, i, dst);
      OwnFollowsListing(after, path, names, i + 1, ordinal + 1);
      PlanPrepend(Renamed(path, child, dst, ordinal), WalkEntries(after, path, names, i + 1, ordinal + 1, GetNewName), path, files, ordinal);
    }
  }

  /**
   * `recur(path)` on a directory whose listing the operating system gave:
   * the k-th regular file of the listing (counting from 0) is renamed or
   * skipped with ordinal k + 1, in listing order, up to the point where the
   * walk fails, and all of them when it does not.
   */
  lemma OrdinalsFollowListing(fs: Fs, path: string)
    requires DirForm(path) && IsDir(fs, path)
    requires ListingFrom(fs, path, fs.nodes[path].entries, 0)
    ensures var r := WalkDir(fs, path, GetNewName);
      var plan := Numbered(FileEntries(fs, path, fs.nodes[path].entries), 1);
      IsPrefix(Own(r.log, path), plan) && (r.failure.None? ==> Own(r.log, path) == plan)
  {
    var names := fs.nodes[path].entries;
    if path in fs.unreadable {
    } else if names == [] {
      assert Own([Removed(path)], path) == [];
    } else {
      OwnFollowsListing(fs, path, names, 0, 1);
      assert names[0..] == names;
    }
  }

  /** Entry `j` of the listing is a regular file that already carries the
      name numbering gives it. */
  predicate NumberedAt(fs: Fs, path: string, names: seq<Name>, j: nat)
    requires j < |names|
  {
    IsFile(fs, Join(path, names[j])) && names[j] == NumberedName(j + 1, Extension(names[j]))
  }

  /** Run `r` leaves the state `fs` as it was, does not fail, and consists
      of `count` skips. */
  ghost predicate OnlySkips(r: Run, fs: Fs, count: nat) {
    r.fs == fs && r.failure == None && |r.log| == count && forall e :: e in r.log ==> e.Skipped?
  }


  lemma NumberedNameKept(path: string, n: Name, num: nat)
    requires DirForm(path) && n == NumberedName(num, Extension(n))
    ensures GetNewName(Join(path, n), num) == Ok(Join(path, n))
  {
    assert '.' in n by {
      assert n[|Decimal(num)|] == '.';
    }
    KeepsNameIff(path, n, num);
  }

  /** One more skip in front of a run of skips. */
  lemma SkipPrepend(ev: Event, r: Run, fs: Fs, count: nat)
    requires ev.Skipped? && OnlySkips(r, fs, count)
    ensures OnlySkips(After([ev], r), fs, count + 1)
  {
    forall e | e in [ev] + r.log ensures e.Skipped? {
      if e != ev {
        assert e in r.log;
      }
    }
  }

  /** Every entry of the listing from position `i` on is numbered already. */
  ghost predicate NumberedFrom(fs: Fs, path: string, names: seq<Name>, i: nat) {
    forall j :: i <= j < |names| ==> NumberedAt(fs, path, names, j)
  }

  /** A numbered entry is skipped with its own ordinal. */
  lemma NumberedStep(fs: Fs, path: string, names: seq<Name>, i: nat)
    requires DirForm(path) && i < |names| && NumberedAt(fs, path, names, i)
    ensures WalkEntries(fs, path, names, i, i + 1, GetNewName) ==
      After([Skipped(path, Join(path, names[i]), i + 1)], WalkEntries(fs, path, names, i + 1, i + 2, GetNewName))
  {
    NumberedNameKept(path, names[i], i + 1);
    StepSkip(fs, path, names, i, i + 1, GetNewName);
  }

  lemma {:induction false} AllSkipped(fs: Fs, path: string, names: seq<Name>, i: nat)
    requires DirForm(path) && i <= |names| && NumberedFrom(fs, path, names, i)
    ensures OnlySkips(WalkEntries(fs, path, names, i, i + 1, GetNewName), fs, |names| - i)
    decreases |names| - i
  {
    if i < |names| {
      assert NumberedAt(fs, path, names, i);
      NumberedStep(fs, path, names, i);
      assert NumberedFrom(fs, path, names, i + 1);
      AllSkipped(fs, path, names, i + 1);
      SkipPrepend(Skipped(path, Join(path, names[i]), i + 1), WalkEntries(fs, path, names, i + 1, i + 2, GetNewName), fs, |names| - i - 1);
    }
  }

  /**
   * Running the program a second time: a directory whose entries are all
   * regular files already named `<k>.<ext>`, with k their position in the
   * listing counted from 1 and ext in lower case, is left exactly as it
   * is; every file is skipped and nothing fails.
   */
  lemma NumberedDirectoryUntouched(fs: Fs, path: string)
    requires DirForm(path) && IsDir(fs, path) && path !in fs.unreadable && fs.nodes[path].entries != []
    requires NumberedFrom(fs, path, fs.nodes[path].entries, 0)
    ensures OnlySkips(WalkDir(fs, path, GetNewName), fs, |fs.nodes[path].entries|)
  {
    AllSkipped(fs, path, fs.nodes[path].entries, 0);
    SkipsThroughListing(fs, path, |fs.nodes[path].entries|);
  }

  lemma SkipsThroughListing(fs: Fs, path: string, count: nat)
    requires IsDir(fs, path) && path !in fs.unreadable && fs.nodes[path].entries != []
    requires OnlySkips(WalkEntries(fs, path, fs.nodes[path].entries, 0, 1, GetNewName), fs, count)
    ensures OnlySkips(WalkDir(fs, path, GetNewName), fs, count)
  {
    StepIntoListing(fs, path, GetNewName);
  }
}
