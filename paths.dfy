/** The parts of `os.path` the suite relies on, for POSIX paths. */
module Paths {

  /** File contents. */
  type Bytes = seq<bv8>

  /** A single path component as `os.listdir` and `os.walk` report it: non-empty, no separator. */
  predicate IsName(n: string) {
    n != [] && '/' !in n
  }

  /** `os.path.join(a, b)`: an absolute b replaces a; otherwise one separator between them. */
  function Join(a: string, b: string): (r: string)
    ensures |b| > 0 && b[0] == '/' ==> r == b
    ensures (|b| == 0 || b[0] != '/') && a != [] && a[|a| - 1] != '/' ==> r == a + "/" + b
  {
    if |b| > 0 && b[0] == '/' then b
    else if a == [] || a[|a| - 1] == '/' then a + b
    else a + "/" + b
  }

  /** `os.path.basename(p)`: everything after the last separator. */
  function BaseName(p: string): (r: string)
    ensures '/' !in r
  {
    if p == [] || p[|p| - 1] == '/' then [] else BaseName(p[..|p| - 1]) + [p[|p| - 1]]
  }

  lemma {:induction false} BaseNameAfterSlash(x: string, m: string)
    requires '/' !in m
    requires x == [] || x[|x| - 1] == '/'
    ensures BaseName(x + m) == m
  {
    if m != [] {
      var p := x + m;
      assert p[..|p| - 1] == x + m[..|m| - 1];
      BaseNameAfterSlash(x, m[..|m| - 1]);
    } else {
      assert x + m == x;
    }
  }

  /** Joining a directory and a listed name, then taking the base name, gives the name back. */
  lemma BaseNameOfJoin(a: string, n: string)
    requires IsName(n)
    ensures BaseName(Join(a, n)) == n
  {
    assert n[0] != '/' by { assert n[0] in n; }
    if a == [] || a[|a| - 1] == '/' {
      BaseNameAfterSlash(a, n);
    } else {
      assert a + "/" + n == (a + "/") + n;
      BaseNameAfterSlash(a + "/", n);
    }
  }
}
