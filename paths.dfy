/** The parts of Python's `posixpath` the generator relies on to name files: `join` with two
    components, `basename` and `dirname`. */
module Paths {
  import opened Text
  import opened Wrappers

  /** Index of the last occurrence of `c` in `s`, as `str.rfind`. */
  function LastIndexOf(s: string, c: char): (r: Option<nat>)
    ensures r.Some? ==> r.value < |s| && s[r.value] == c && c !in s[r.value + 1..]
    ensures r.None? ==> c !in s
  {
    if |s| == 0 then None
    else if s[|s| - 1] == c then Some(|s| - 1)
    else
      match LastIndexOf(s[..|s| - 1], c)
      case None => None
      case Some(k) =>
        assert s[k + 1..] == s[..|s| - 1][k + 1..] + [s[|s| - 1]];
        Some(k)
  }

  lemma {:induction false} LastIndexOfAt(s: string, c: char, k: nat)
    requires k < |s| && s[k] == c && c !in s[k + 1..]
    ensures LastIndexOf(s, c) == Some(k)
    decreases |s|
  {
    if k < |s| - 1 {
      assert s[k + 1..][|s| - 1 - (k + 1)] == s[|s| - 1];
      var t := s[..|s| - 1];
      assert t[k + 1..] == s[k + 1..|s| - 1];
      LastIndexOfAt(t, c, k);
    }
  }

  /** `os.path.join(a, b)`: an absolute `b` replaces `a`; otherwise `b` is appended,
      with a `/` in between unless `a` is empty or already ends with one. */
  function PathJoin(a: string, b: string): string
  {
    if StartsWith(b, "/") then b
    else if a == "" || EndsWith(a, "/") then a + b
    else a + "/" + b
  }

  /** `os.path.basename(p)`: what follows the last `/`. */
  function Basename(p: string): (r: string)
    ensures '/' !in r
  {
    match LastIndexOf(p, '/')
    case None => p
    case Some(i) => p[i + 1..]
  }

  /** `s.rstrip('/')`. */
  function RStripSlash(s: string): (r: string)
    ensures |r| <= |s| && r == s[..|r|]
    ensures r == "" || r[|r| - 1] != '/'
    ensures forall i :: |r| <= i < |s| ==> s[i] == '/'
  {
    if |s| == 0 || s[|s| - 1] != '/' then s else RStripSlash(s[..|s| - 1])
  }

  predicate AllSlashes(s: string)
  {
    forall i :: 0 <= i < |s| ==> s[i] == '/'
  }

  /** `os.path.dirname(p)`: everything up to the last `/`, with trailing slashes removed
      unless the head consists of slashes only. */
  function Dirname(p: string): string
  {
    var head := match LastIndexOf(p, '/') case None => "" case Some(i) => p[..i + 1];
    if head != "" && !AllSlashes(head) then RStripSlash(head) else head
  }

  /** Joining a plain file name onto a directory yields a path whose basename is that name. */
  lemma BasenameOfJoin(a: string, b: string)
    requires b != "" && '/' !in b
    ensures Basename(PathJoin(a, b)) == b
  {
    var p := PathJoin(a, b);
    assert !StartsWith(b, "/") by { assert b[0] in b; }
    if a == "" || EndsWith(a, "/") {
      assert p == a + b;
      if a != "" {
        assert p[|a| - 1] == '/' && p[|a|..] == b;
        LastIndexOfAt(p, '/', |a| - 1);
      }
    } else {
      assert p == (a + "/") + b;
      assert p[|a|] == '/' && p[|a| + 1..] == b;
      LastIndexOfAt(p, '/', |a|);
    }
  }

  /** ...and whose dirname is the directory again, when the directory is written without a
      trailing slash and is not made of slashes only. */
  lemma DirnameOfJoin(a: string, b: string)
    requires b != "" && '/' !in b
    requires a != "" && !EndsWith(a, "/") && !AllSlashes(a)
    ensures Dirname(PathJoin(a, b)) == a
  {
    var p := PathJoin(a, b);
    assert !StartsWith(b, "/") by { assert b[0] in b; }
    assert p == (a + "/") + b;
    assert p[|a|] == '/' && p[|a| + 1..] == b;
    LastIndexOfAt(p, '/', |a|);
    var head := p[..|a| + 1];
    assert head == a + "/";
    assert !AllSlashes(head) by {
      var i :| 0 <= i < |a| && a[i] != '/';
      assert head[i] == a[i];
    }
    assert RStripSlash(head) == a by {
      assert head[..|a|] == a;
      assert a[|a| - 1] != '/';
    }
  }
}
