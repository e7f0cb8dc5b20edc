/**
 * Path strings as the program builds and takes them apart (POSIX `os.path`
 * rules for `dirname` and `join`), and `get_new_name`, which rewrites the
 * path of a file to `<directory>/<ordinal>.<lower-cased extension>`.
 */
module Paths {
  import opened Outcomes

  predicate AllSlashes(s: string) {
    forall i :: 0 <= i < |s| ==> s[i] == '/'
  }

  /** The index just after the last '/' of `p`, or 0 when `p` has none. */
  function SplitPoint(p: string): (i: nat)
    ensures i <= |p|
    ensures 0 < i ==> p[i - 1] == '/'
    ensures forall j :: i <= j < |p| ==> p[j] != '/'
  {
    if p == [] then 0
    else if p[|p| - 1] == '/' then |p|
    else SplitPoint(p[..|p| - 1])
  }

  /** `s` without its trailing run of '/'. */
  function StripSlashes(s: string): (r: string)
    ensures |r| <= |s| && r == s[..|r|]
    ensures r == [] || r[|r| - 1] != '/'
    ensures forall j :: |r| <= j < |s| ==> s[j] == '/'
  {
    if s != [] && s[|s| - 1] == '/' then StripSlashes(s[..|s| - 1]) else s
  }

  /** `os.path.dirname`: everything before the last '/', with trailing
      slashes removed unless the result is made of slashes only. */
  function Dirname(p: string): string {
    var head := p[..SplitPoint(p)];
    if head != [] && !AllSlashes(head) then StripSlashes(head) else head
  }

  /** `os.path.basename`: everything after the last '/'. */
  function Basename(p: string): (b: string)
    ensures '/' !in b
    ensures |b| <= |p| && b == p[|p| - |b|..]
  {
    p[SplitPoint(p)..]
  }

  /** `os.path.join(a, b)` for two components. */
  function Join(a: string, b: string): (r: string)
    ensures b != [] && b[0] != '/' ==> |r| > |a| && r[..|a|] == a
  {
    if b != [] && b[0] == '/' then b
    else if a == [] || a[|a| - 1] == '/' then a + b
    else a + "/" + b
  }

  /** A directory path in the form `dirname` produces: no trailing '/'
      unless it consists of slashes only. */
  predicate DirForm(d: string) {
    d == [] || d[|d| - 1] != '/' || AllSlashes(d)
  }

  lemma SplitPointIs(p: string, i: nat)
    requires i <= |p|
    requires 0 < i ==> p[i - 1] == '/'
    requires forall j :: i <= j < |p| ==> p[j] != '/'
    ensures SplitPoint(p) == i
  {
  }

  lemma StripSlashesIs(s: string, r: string)
    requires |r| <= |s| && r == s[..|r|]
    requires r == [] || r[|r| - 1] != '/'
    requires forall j :: |r| <= j < |s| ==> s[j] == '/'
    ensures StripSlashes(s) == r
  {
  }

  /** What `dirname` returns is already in directory form. */
  lemma DirnameIsDirForm(p: string)
    ensures DirForm(Dirname(p))
  {
  }

  /** Joining a slash-free component onto a directory in directory form
      and taking the result apart again gives back both pieces. */
  lemma {:induction false} DirnameOfJoin(d: string, n: string)
    requires DirForm(d)
    requires '/' !in n
    ensures Dirname(Join(d, n)) == d
    ensures Basename(Join(d, n)) == n
  {
    var p := Join(d, n);
    if d == [] {
      assert p == n;
      SplitPointIs(p, 0);
    } else if d[|d| - 1] == '/' {
      assert p == d + n;
      SplitPointIs(p, |d|);
      assert p[..|d|] == d;
      if !AllSlashes(d) {
        assert false;
      }
    } else {
      assert p == d + "/" + n;
      SplitPointIs(p, |d| + 1);
      var head := p[..|d| + 1];
      assert head == d + "/";
      assert !AllSlashes(head) by {
        assert head[|d| - 1] == d[|d| - 1];
      }
      StripSlashesIs(head, d);
    }
  }

  /** Two names joined onto the same directory are equal only if the names are. */
  lemma JoinCancel(d: string, a: string, b: string)
    requires a != [] && a[0] != '/'
    requires b != [] && b[0] != '/'
    requires Join(d, a) == Join(d, b)
    ensures a == b
  {
    var k := if d == [] || d[|d| - 1] == '/' then |d| else |d| + 1;
    assert Join(d, a)[k..] == a;
    assert Join(d, b)[k..] == b;
  }

  /** `k` is `c` itself or a path inside the directory `c`. */
  predicate Within(c: string, k: string) {
    k == c || (|k| > |c| && k[..|c|] == c && (c == [] || c[|c| - 1] == '/' || k[|c|] == '/'))
  }

  lemma JoinWithin(d: string, b: string)
    requires b != [] && b[0] != '/'
    ensures Within(d, Join(d, b))
  {
  }

  lemma WithinTrans(a: string, b: string, c: string)
    requires Within(a, b) && Within(b, c)
    ensures Within(a, c)
  {
    if a != b && b != c {
      assert c[..|a|] == c[..|b|][..|a|];
    }
  }

  /** The text after the last '.' of `s` (all of `s` when it has no '.'),
      which is `s.split('.')[-1]`. */
  function Extension(s: string): (e: string)
    ensures '.' !in e
    ensures |e| <= |s| && e == s[|s| - |e|..]
    ensures |e| < |s| ==> s[|s| - |e| - 1] == '.'
  {
    if s == [] then []
    else if s[|s| - 1] == '.' then []
    else Extension(s[..|s| - 1]) + [s[|s| - 1]]
  }

  /** The three facts in Extension's contract determine it: it is the text
      after the last '.', or the whole string when there is no '.'. */
  lemma ExtensionIs(s: string, e: string)
    requires '.' !in e
    requires |e| <= |s| && e == s[|s| - |e|..]
    requires |e| < |s| ==> s[|s| - |e| - 1] == '.'
    ensures Extension(s) == e
  {
  }

  /** A '.' anywhere in `s` is exactly what makes its extension shorter than
      the whole string. */
  lemma ExtensionShorter(s: string)
    ensures '.' in s <==> |Extension(s)| < |s|
  {
    var e := Extension(s);
    if |e| == |s| {
      assert e == s;
    }
  }

  /** When the last part of a string holds a '.', the extension lies inside it. */
  lemma ExtensionOfSuffix(a: string, b: string)
    requires '.' in b
    ensures Extension(a + b) == Extension(b)
  {
    ExtensionShorter(b);
    var e := Extension(b);
    var s := a + b;
    assert s[|s| - |e|..] == e;
    assert s[|s| - |e| - 1] == b[|b| - |e| - 1];
    ExtensionIs(s, e);
  }

  function LowerChar(c: char): char {
    if 'A' <= c <= 'Z' then (c as int - 'A' as int + 'a' as int) as char else c
  }

  /** `str.lower` on the ASCII letters. */
  function Lower(s: string): (r: string)
    ensures |r| == |s|
    ensures forall i :: 0 <= i < |s| ==> r[i] == LowerChar(s[i])
  {
    seq(|s|, i requires 0 <= i < |s| => LowerChar(s[i]))
  }

  /** Lower-casing neither adds nor removes the separators '.' and '/',
      and leaves no upper-case ASCII letter behind. */
  lemma LowerKeepsSeparators(s: string)
    ensures '.' in Lower(s) <==> '.' in s
    ensures '/' in Lower(s) <==> '/' in s
    ensures forall i :: 0 <= i < |s| ==> !('A' <= Lower(s)[i] <= 'Z')
  {
    var r := Lower(s);
    if '.' in r {
      var i :| 0 <= i < |r| && r[i] == '.';
      assert s[i] == '.';
    }
    if '/' in r {
      var i :| 0 <= i < |r| && r[i] == '/';
      assert s[i] == '/';
    }
    if '.' in s {
      var i :| 0 <= i < |s| && s[i] == '.';
      assert r[i] == '.';
    }
    if '/' in s {
      var i :| 0 <= i < |s| && s[i] == '/';
      assert r[i] == '/';
    }
  }

  predicate IsDigit(c: char) {
    '0' <= c <= '9'
  }

  function DigitChar(d: nat): (c: char)
    requires d < 10
    ensures IsDigit(c)
  {
    ('0' as int + d) as char
  }

  /** `str(n)`: the decimal digits of `n`, without padding. */
  function Decimal(n: nat): (s: string)
    ensures s != []
    ensures forall i :: 0 <= i < |s| ==> IsDigit(s[i])
    ensures s[0] == '0' ==> n == 0
  {
    if n < 10 then [DigitChar(n)] else Decimal(n / 10) + [DigitChar(n % 10)]
  }

  function DigitValue(c: char): (d: nat)
    requires IsDigit(c)
    ensures d < 10
  {
    c as int - '0' as int
  }

  /** `int(s)` on a string of decimal digits; the inverse of Decimal. */
  function ParseDecimal(s: string): nat
    requires forall i :: 0 <= i < |s| ==> IsDigit(s[i])
  {
    if s == [] then 0
    else ParseDecimal(s[..|s| - 1]) * 10 + DigitValue(s[|s| - 1])
  }

  lemma {:induction false} DecimalRoundTrip(n: nat)
    ensures ParseDecimal(Decimal(n)) == n
  {
    var s := Decimal(n);
    if n >= 10 {
      DecimalRoundTrip(n / 10);
      assert s[..|s| - 1] == Decimal(n / 10);
    }
  }

  /** Distinct ordinals give distinct file names. */
  lemma DecimalInjective(m: nat, n: nat)
    requires Decimal(m) == Decimal(n)
    ensures m == n
  {
    DecimalRoundTrip(m);
    DecimalRoundTrip(n);
  }

  /** The part of a new name after the directory: `<num>.<ext>`. */
  function NumberedName(num: nat, ext: string): string {
    Decimal(num) + "." + Lower(ext)
  }

  /** The length of the run of digits `s` starts with. */
  function DigitRun(s: string): (k: nat)
    ensures k <= |s|
  {
    if s != [] && IsDigit(s[0]) then 1 + DigitRun(s[1..]) else 0
  }

  lemma {:induction false} DigitRunOf(a: string, r: string)
    requires forall i :: 0 <= i < |a| ==> IsDigit(a[i])
    requires r != [] && !IsDigit(r[0])
    ensures DigitRun(a + r) == |a|
  {
    if a == [] {
      assert a + r == r;
    } else {
      assert (a + r)[0] == a[0];
      assert (a + r)[1..] == a[1..] + r;
      DigitRunOf(a[1..], r);
    }
  }

  /**
   * The numbered name gives the ordinal back: the digits stop at the
   * first '.', so two ordinals never share a numbered name, whatever the
   * extensions.
   */
  lemma NumberedNameInjective(m: nat, e: string, n: nat, f: string)
    requires NumberedName(m, e) == NumberedName(n, f)
    ensures m == n
  {
    var r, q := "." + Lower(e), "." + Lower(f);
    assert NumberedName(m, e) == Decimal(m) + r;
    assert NumberedName(n, f) == Decimal(n) + q;
    DigitPrefixesAgree(Decimal(m), r, Decimal(n), q);
    DecimalInjective(m, n);
  }

  /** Two strings that each start with a run of digits ended by a non-digit agree on that run. */
  lemma DigitPrefixesAgree(a: string, r: string, b: string, q: string)
    requires forall i :: 0 <= i < |a| ==> IsDigit(a[i])
    requires forall i :: 0 <= i < |b| ==> IsDigit(b[i])
    requires r != [] && !IsDigit(r[0]) && q != [] && !IsDigit(q[0])
    requires a + r == b + q
    ensures a == b
  {
    DigitRunOf(a, r);
    DigitRunOf(b, q);
    assert a == (a + r)[..|a|];
    assert b == (b + q)[..|b|];
  }

  /**
   * `get_new_name(name, num)`: raises when there is no '.' anywhere in the
   * path `name`; otherwise joins the directory of `name` with the decimal
   * ordinal, a '.', and the lower-cased text after the last '.' of `name`.
   */
  function GetNewName(name: string, num: nat): (r: Result<string, string>)
    ensures r.Err? <==> '.' !in name
    ensures r.Err? ==> r.error == name
  {
    if '.' !in name then Err(name)
    else Ok(Join(Dirname(name), NumberedName(num, Extension(name))))
  }

  /** The destination keeps the source's extension, lower-cased. */
  lemma NewNameExtension(name: string, num: nat)
    requires '.' in name
    ensures GetNewName(name, num).Ok?
    ensures Extension(GetNewName(name, num).value) == Lower(Extension(name))
  {
    var ext := Lower(Extension(name));
    LowerKeepsSeparators(Extension(name));
    var b := NumberedName(num, Extension(name));
    var r := Join(Dirname(name), b);
    assert b[0] != '/' by { assert IsDigit(Decimal(num)[0]); }
    assert r[|r| - |b|..] == b;
    assert b[|Decimal(num)|] == '.';
    assert r[|r| - |ext|..] == ext;
    assert r[|r| - |ext| - 1] == b[|b| - |ext| - 1];
    ExtensionIs(r, ext);
  }

  /**
   * When the last '.' of the path lies in its final component, the
   * destination stays in the source's directory and its final component is
   * exactly `<num>.<lower-cased extension>`: everything else in the old
   * name is dropped.
   */
  lemma NewNameLocation(name: string, num: nat)
    requires '.' in name
    requires '/' !in Extension(name)
    ensures GetNewName(name, num).Ok?
    ensures Dirname(GetNewName(name, num).value) == Dirname(name)
    ensures Basename(GetNewName(name, num).value) == NumberedName(num, Extension(name))
  {
    LowerKeepsSeparators(Extension(name));
    var b := NumberedName(num, Extension(name));
    assert '/' !in b by {
      assert forall i :: 0 <= i < |Decimal(num)| ==> IsDigit(Decimal(num)[i]);
    }
    DirnameIsDirForm(name);
    DirnameOfJoin(Dirname(name), b);
  }

  /**
   * For a file `n` in a directory `d`: the new name is computed from `n`
   * alone (its extension and the ordinal), and the destination is `n`'s
   * sibling.
   */
  lemma NewNameOfEntry(d: string, n: string, num: nat)
    requires DirForm(d)
    requires '/' !in n && '.' in n
    ensures GetNewName(Join(d, n), num) == Ok(Join(d, NumberedName(num, Extension(n))))
  {
    var p := Join(d, n);
    DirnameOfJoin(d, n);
    assert p == Join(d, n);
    var k := |p| - |n|;
    assert p[k..] == n;
    assert p == p[..k] + n;
    ExtensionOfSuffix(p[..k], n);
  }

  /**
   * `get_new_name` gives each file of one directory "a unique number":
   * two paths with the same dirname get the same new name only under the
   * same ordinal.
   */
  lemma NewNameUnique(x: string, y: string, i: nat, j: nat)
    requires Dirname(x) == Dirname(y)
    requires GetNewName(x, i).Ok? && GetNewName(x, i) == GetNewName(y, j)
    ensures i == j
  {
    var a, b := NumberedName(i, Extension(x)), NumberedName(j, Extension(y));
    assert a[0] != '/' by { assert IsDigit(Decimal(i)[0]); }
    assert b[0] != '/' by { assert IsDigit(Decimal(j)[0]); }
    JoinCancel(Dirname(x), a, b);
    NumberedNameInjective(i, Extension(x), j, Extension(y));
  }

  /**
   * A file keeps its path exactly when its name already is
   * `<num>.<lower-cased extension>`: this is when the program skips it.
   */
  lemma KeepsNameIff(d: string, n: string, num: nat)
    requires DirForm(d)
    requires n != [] && '/' !in n
    ensures GetNewName(Join(d, n), num) == Ok(Join(d, n))
        <==> '.' in n && n == NumberedName(num, Extension(n))
  {
    var p := Join(d, n);
    if '.' in n {
      NewNameOfEntry(d, n, num);
      var b := NumberedName(num, Extension(n));
      assert b[0] != '/' by { assert IsDigit(Decimal(num)[0]); }
      if Join(d, b) == p {
        JoinCancel(d, b, n);
      }
    } else if GetNewName(p, num).Ok? {
      var b := NumberedName(num, Extension(p));
      assert b[0] != '/' by { assert IsDigit(Decimal(num)[0]); }
      DirnameOfJoin(d, n);
      assert b[|Decimal(num)|] == '.';
      if Join(d, b) == p {
        JoinCancel(d, b, n);
        assert false;
      }
    }
  }

  /**
   * The '.' test looks at the whole path: a file without a '.' inside a
   * directory whose name has one gets an "extension" that runs across the
   * '/', and its destination lies in another directory.
   */
  lemma DottedDirectoryMovesFile()
    ensures GetNewName("a.b/c", 1) == Ok("a.b/1.b/c")
    ensures Dirname("a.b/1.b/c") == "a.b/1.b" != Dirname("a.b/c")
  {
    DottedSource();
    DottedNumberedName();
    DottedDestination();
    assert |"a.b/1.b"| != |"a.b"|;
  }

  /** The pieces `get_new_name` takes from "a.b/c". */
  lemma DottedSource()
    ensures '.' in "a.b/c"
    ensures Dirname("a.b/c") == "a.b"
    ensures Extension("a.b/c") == "b/c"
  {
    assert "a.b/c"[1] == '.';
    DirnameOfJoin("a.b", "c");
    assert Join("a.b", "c") == "a.b/c";
    ExtensionIs("a.b/c", "b/c");
  }

  /** The name `get_new_name` builds from those pieces. */
  lemma DottedNumberedName()
    ensures NumberedName(1, "b/c") == "1.b/c"
  {
    assert Decimal(1) == "1";
    var l := Lower("b/c");
    assert l[0] == 'b' && l[1] == '/' && l[2] == 'c';
    assert l == "b/c";
  }

  /** The destination, and its directory. */
  lemma DottedDestination()
    ensures Join("a.b", "1.b/c") == "a.b/1.b/c"
    ensures Dirname("a.b/1.b/c") == "a.b/1.b"
  {
    DirnameOfJoin("a.b/1.b", "c");
    assert Join("a.b/1.b", "c") == "a.b/1.b/c";
  }
}
