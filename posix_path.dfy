/** The four path operations the output-name expression relies on:
    `str.rfind`, `os.path.basename`, `os.path.splitext` and `os.path.join`,
    with CPython's `posixpath` behaviour (separator '/', extension separator '.'). */
module PosixPath {

  /** `s.rfind(c)`: the index of the last `c` in `s`, or -1. */
  function RFind(s: string, c: char): (k: int)
    ensures -1 <= k < |s|
    ensures k >= 0 ==> s[k] == c
    ensures forall j :: k < j < |s| ==> s[j] != c
    ensures k == -1 <==> c !in s
  {
    if s == [] then -1
    else if s[|s| - 1] == c then |s| - 1
    else RFind(s[..|s| - 1], c)
  }

  /** The last-occurrence property determines `RFind` uniquely. */
  lemma RFindIs(s: string, c: char, k: int)
    requires -1 <= k < |s| && (k >= 0 ==> s[k] == c)
    requires forall j :: k < j < |s| ==> s[j] != c
    ensures RFind(s, c) == k
  {
  }

  /** `os.path.basename(p)`: everything after the last '/'. */
  function Basename(p: string): (b: string)
    ensures '/' !in b
    ensures |b| <= |p| && p[|p| - |b|..] == b
    ensures |b| == |p| || p[|p| - |b| - 1] == '/'
  {
    p[RFind(p, '/') + 1..]
  }

  /** Some character in `p[lo..hi]` is not a dot. */
  predicate HasNonDot(p: string, lo: int, hi: int)
  {
    exists i :: lo <= i < hi && 0 <= i < |p| && p[i] != '.'
  }

  /** `os.path.splitext(p)`: split at the last '.' of the last path component,
      provided some character other than '.' comes before it in that component;
      otherwise the extension is empty. */
  function SplitExt(p: string): (r: (string, string))
    ensures r.0 + r.1 == p
    ensures r.1 != "" ==> r.1[0] == '.' && '.' !in r.1[1..] && '/' !in r.1
  {
    var sep := RFind(p, '/');
    var dot := RFind(p, '.');
    if dot > sep && HasNonDot(p, sep + 1, dot) then
      assert p[..dot] + p[dot..] == p;
      (p[..dot], p[dot..])
    else
      assert p + "" == p;
      (p, "")
  }

  /** The extension is non-empty exactly when, in the last path component,
      some character other than '.' precedes some '.'. */
  lemma SplitExtRule(p: string)
    ensures SplitExt(p).1 != "" <==>
              exists i, j :: RFind(p, '/') < i < j < |p| && p[i] != '.' && p[j] == '.'
  {
  }

  /** `os.path.join(a, b)` for one further component. */
  function Join(a: string, b: string): (r: string)
    ensures |b| > 0 && b[0] == '/' ==> r == b
    ensures !(|b| > 0 && b[0] == '/') && (a == [] || a[|a| - 1] == '/') ==> r == a + b
    ensures !(|b| > 0 && b[0] == '/') && !(a == [] || a[|a| - 1] == '/') ==> r == a + "/" + b
    ensures |b| <= |r| && r[|r| - |b|..] == b
  {
    if |b| > 0 && b[0] == '/' then b
    else if a == [] || a[|a| - 1] == '/' then a + b
    else a + "/" + b
  }

  /** Joining a bare file name onto a folder: the folder is kept as the prefix
      and the basename of the result is the file name. */
  lemma JoinBasename(a: string, b: string)
    requires '/' !in b
    ensures Basename(Join(a, b)) == b
    ensures |a| <= |Join(a, b)| && Join(a, b)[..|a|] == a
  {
    var r := Join(a, b);
    if a == [] {
      assert r == b;
      RFindIs(r, '/', -1);
    } else if a[|a| - 1] == '/' {
      assert r == a + b;
      RFindIs(r, '/', |a| - 1);
    } else {
      assert r == a + "/" + b;
      RFindIs(r, '/', |a|);
    }
  }

  /** A name with a non-dot character before its last dot splits there:
      `splitext(stem + "." + ext) == (stem, "." + ext)`. */
  lemma SplitAtLastDot(stem: string, ext: string)
    requires '/' !in stem && '/' !in ext && '.' !in ext
    requires exists i :: 0 <= i < |stem| && stem[i] != '.'
    ensures SplitExt(stem + "." + ext) == (stem, "." + ext)
  {
    var p := stem + "." + ext;
    RFindIs(p, '/', -1);
    RFindIs(p, '.', |stem|);
    var i :| 0 <= i < |stem| && stem[i] != '.';
    assert p[i] != '.';
    assert p[..|stem|] == stem && p[|stem|..] == "." + ext;
  }

  /** A component without a dot has no extension. */
  lemma NoDotNoExt(p: string)
    requires '.' !in p
    ensures SplitExt(p) == (p, "")
  {
  }

  /** A component whose only dots lead it (a hidden file such as ".bashrc")
      has no extension. */
  lemma LeadingDotsNoExt(dots: string, rest: string)
    requires forall i :: 0 <= i < |dots| ==> dots[i] == '.'
    requires '.' !in rest && '/' !in rest
    ensures SplitExt(dots + rest) == (dots + rest, "")
  {
    var p := dots + rest;
    RFindIs(p, '/', -1);
    forall i, j | -1 < i < j < |p| && p[j] == '.' ensures p[i] == '.' {
      assert j < |dots|;
    }
  }
}
