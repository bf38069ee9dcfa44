/** The two POSIX path operations the merger and downloader rely on:
    `os.path.join` for two components and `os.path.splitext`. */
module Paths {
  import opened Text

  /** Index of the last `c` in `s`, or -1 (Python's `str.rfind`). */
  function LastIndex(s: string, c: char): (r: int)
    ensures -1 <= r < |s|
    ensures r >= 0 ==> s[r] == c
    ensures forall j :: r < j < |s| ==> s[j] != c
  {
    if s == [] then -1
    else if s[|s| - 1] == c then |s| - 1
    else LastIndex(s[..|s| - 1], c)
  }

  /** `os.path.join(dir, name)`: an absolute `name` replaces `dir`. */
  function Join(dir: string, name: string): (path: string)
    ensures StartsWith(name, "/") ==> path == name
    ensures !StartsWith(name, "/") ==> EndsWith(path, name)
  {
    if StartsWith(name, "/") then name
    else if dir == [] || EndsWith(dir, "/") then dir + name
    else dir + "/" + name
  }

  datatype Split = Split(root: string, ext: string)

  /** Some character after the last `/` of `p`, before index `dot`, is not a dot. */
  predicate StemBefore(p: string, dot: int)
    requires dot <= |p|
  {
    exists k :: LastIndex(p, '/') < k < dot && p[k] != '.'
  }

  /** `os.path.splitext(p)`: the extension starts at the last dot of the last
      path component, unless everything before that dot in the component is
      dots (`.bashrc` has no extension). */
  function SplitExt(p: string): (r: Split)
    ensures r.root + r.ext == p
    ensures r.ext == [] || (r.ext[0] == '.' && '.' !in r.ext[1..] && '/' !in r.ext)
  {
    var sep := LastIndex(p, '/');
    var dot := LastIndex(p, '.');
    if dot > sep && StemBefore(p, dot) then
      assert forall j :: 0 <= j < |p[dot..]| ==> p[dot..][j] == p[dot + j];
      Split(p[..dot], p[dot..])
    else
      Split(p, [])
  }

  /** A stem that is followed by a new extension keeps exactly that extension:
      `splitext(root + ext) == (root, ext)` when `root` ends in a component with
      a non-dot character. */
  lemma SplitExtAppended(root: string, ext: string)
    requires StemBefore(root, |root|)
    requires |ext| > 0 && ext[0] == '.' && '.' !in ext[1..] && '/' !in ext
    ensures SplitExt(root + ext) == Split(root, ext)
  {
    var p := root + ext;
    var k :| LastIndex(root, '/') < k < |root| && root[k] != '.';
    assert p[..|root|] == root;
    assert forall j :: |root| < j < |p| ==> p[j] == ext[j - |root|];
    assert forall j :: |root| < j < |p| ==> p[j] != '.' by {
      forall j | |root| < j < |p| ensures p[j] != '.' {
        assert ext[1..][j - |root| - 1] == ext[j - |root|];
      }
    }
    LastIndexAppend(root, ext, '.');
    LastIndexAppend(root, ext, '/');
    assert LastIndex(p, '.') == |root|;
    assert LastIndex(p, '/') == LastIndex(root, '/');
    assert p[k] == root[k];
  }

  /** The last `c` of `a + b` is in `a` when `b` has none, and is at `|a|`
      when `b` starts with `c` and has no other. */
  lemma LastIndexAppend(a: string, b: string, c: char)
    requires |b| > 0
    requires c !in b[1..]
    ensures b[0] == c ==> LastIndex(a + b, c) == |a|
    ensures b[0] != c ==> LastIndex(a + b, c) == LastIndex(a, c)
  {
    var p := a + b;
    var r := LastIndex(p, c);
    assert forall j :: |a| < j < |p| ==> p[j] == b[1..][j - |a| - 1];
    if b[0] == c {
      assert p[|a|] == c;
    } else {
      assert p[|a|] != c;
      assert r < |a|;
      LastIndexPrefix(p, |a|, c);
      assert p[..|a|] == a;
    }
  }

  /** When the last `c` lies before `n`, it is also the last `c` of `s[..n]`. */
  lemma {:induction false} LastIndexPrefix(s: string, n: nat, c: char)
    requires n <= |s|
    requires LastIndex(s, c) < n
    ensures LastIndex(s[..n], c) == LastIndex(s, c)
    decreases |s|
  {
    if n < |s| {
      assert s[|s| - 1] != c;
      assert s[..|s| - 1][..n] == s[..n];
      LastIndexPrefix(s[..|s| - 1], n, c);
    } else {
      assert s[..n] == s;
    }
  }
}
