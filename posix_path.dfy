/** The parts of Node's POSIX `path` module the image code relies on:
    `basename(p)`, `basename(p, ext)` for a single component, and
    `extname(p)`. */
module PosixPath {
  /** `p` with every trailing '/' removed ('' when p is all slashes). */
  function StripTrailingSlashes(p: string): (r: string)
    ensures |r| <= |p| && r == p[..|r|]
    ensures r == [] || r[|r| - 1] != '/'
  {
    if p != [] && p[|p| - 1] == '/' then StripTrailingSlashes(p[..|p| - 1]) else p
  }

  /** The part of `p` after its last '/' (all of p when it has none). */
  function AfterLastSlash(p: string): (r: string)
    ensures '/' !in r
    ensures |r| <= |p| && r == p[|p| - |r|..]
    ensures |r| < |p| ==> p[|p| - |r| - 1] == '/'
  {
    if p == [] then []
    else if p[|p| - 1] == '/' then []
    else AfterLastSlash(p[..|p| - 1]) + [p[|p| - 1]]
  }

  /** `path.basename(p)`: the last non-empty component; '' for '' or '/'. */
  function Basename(p: string): (r: string)
    ensures '/' !in r
  {
    AfterLastSlash(StripTrailingSlashes(p))
  }

  lemma AfterLastSlashOfComponent(c: string)
    requires '/' !in c
    ensures AfterLastSlash(c) == c
  {
    var r := AfterLastSlash(c);
    assert |r| == |c|;
  }

  /** A name without '/' is its own basename. */
  lemma BasenameOfComponent(c: string)
    requires '/' !in c
    ensures Basename(c) == c
  {
    assert c == [] || c[|c| - 1] != '/';
    assert StripTrailingSlashes(c) == c;
    AfterLastSlashOfComponent(c);
  }

  /** Index of the last '.' in `c`, or -1. */
  function LastDot(c: string): (d: int)
    ensures -1 <= d < |c|
    ensures d >= 0 ==> c[d] == '.'
    ensures forall i :: d < i < |c| ==> c[i] != '.'
  {
    if c == [] then -1
    else if c[|c| - 1] == '.' then |c| - 1
    else LastDot(c[..|c| - 1])
  }

  /** The extension of one path component, as `extname` computes it: from
      the last '.' to the end, except that a component with no '.', a
      component whose only dot-run starts it ('.bashrc', '.') and '..' have
      none. */
  function ComponentExt(c: string): (r: string)
    ensures r == [] || (r[0] == '.' && |r| < |c| && r == c[|c| - |r|..])
    ensures forall i :: 0 < i < |r| ==> r[i] != '.'
  {
    var d := LastDot(c);
    if d <= 0 || c == ".." then [] else c[d..]
  }

  /** `path.extname(p)` */
  function Extname(p: string): (r: string)
    ensures '/' !in r
    ensures r == [] || (r[0] == '.' && forall i :: 0 < i < |r| ==> r[i] != '.')
  {
    ComponentExt(Basename(p))
  }

  /** `path.basename(c, ext)` for a single component `c`: a non-empty `ext`
      that is a proper suffix of c is cut off; an `ext` equal to c gives ''. */
  function BasenameWithout(c: string, ext: string): (r: string)
    requires '/' !in c
  {
    if ext == [] then c
    else if ext == c then []
    else if |ext| < |c| && c[|c| - |ext|..] == ext then c[..|c| - |ext|]
    else c
  }

  /** The last dot of a name ending in a one-dot extension is the extension's. */
  lemma {:induction false} LastDotOfSuffix(a: string, e: string)
    requires e != [] && e[0] == '.'
    requires forall i :: 0 < i < |e| ==> e[i] != '.'
    ensures LastDot(a + e) == |a|
  {
    var r := a + e;
    if |e| == 1 {
      assert r[|r| - 1] == '.';
    } else {
      assert r[..|r| - 1] == a + e[..|e| - 1];
      LastDotOfSuffix(a, e[..|e| - 1]);
    }
  }

  /** A name made of a non-empty stem without dots and an extension (empty,
      or one dot followed by no other) has exactly that extension. */
  lemma ExtnameAfterDotFreeStem(h: string, e: string)
    requires h != [] && forall i :: 0 <= i < |h| ==> h[i] != '.' && h[i] != '/'
    requires e == [] || (e[0] == '.' && forall i :: 0 < i < |e| ==> e[i] != '.')
    requires '/' !in e
    ensures Extname(h + e) == e
  {
    var r := h + e;
    assert '/' !in r;
    BasenameOfComponent(r);
    if e == [] {
      assert r == h;
      assert forall i :: 0 <= i < |r| ==> r[i] != '.';
      assert LastDot(r) == -1;
    } else {
      LastDotOfSuffix(h, e);
      assert r[|h|..] == e;
      assert r[0] != '.';
    }
  }
}
