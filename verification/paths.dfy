/** POSIX path helpers as Python's `posixpath` computes them. */
module Paths {

  /** Index of the last `c` in `s`, or -1 (as `str.rfind`). */
  function RFind(s: string, c: char): (r: int)
    ensures -1 <= r < |s|
    ensures r >= 0 ==> s[r] == c
    ensures forall j :: r < j < |s| ==> s[j] != c
  {
    if |s| == 0 then -1
    else if s[|s| - 1] == c then |s| - 1
    else RFind(s[..|s| - 1], c)
  }

  /** `os.path.basename(p)`, which is also `os.path.split(p)[1]`: the text after the last '/'. */
  function Basename(p: string): (name: string)
    ensures '/' !in name
    ensures |name| <= |p| && p[|p| - |name|..] == name
    ensures '/' !in p ==> name == p
  {
    p[RFind(p, '/') + 1..]
  }

  /** The base name is the longest '/'-free suffix: unless it is the whole path, a '/' precedes it. */
  lemma BasenameAfterSeparator(p: string)
    ensures var name := Basename(p);
      |name| < |p| ==> p[|p| - |name| - 1] == '/'
  {
    var r := RFind(p, '/');
    assert |Basename(p)| == |p| - (r + 1);
  }

  /** `s.rstrip(c)`. */
  function RStrip(s: string, c: char): (r: string)
    ensures |r| <= |s| && r == s[..|r|]
    ensures |r| == 0 || r[|r| - 1] != c
    ensures forall j :: |r| <= j < |s| ==> s[j] == c
  {
    if |s| == 0 || s[|s| - 1] != c then s else RStrip(s[..|s| - 1], c)
  }

  /**
   * `os.path.split(p)[0]`: everything up to the last '/', with trailing
   * slashes removed unless it consists of slashes only.
   */
  function Head(p: string): string
  {
    var head := p[..RFind(p, '/') + 1];
    if |head| > 0 && exists j :: 0 <= j < |head| && head[j] != '/' then RStrip(head, '/')
    else head
  }

  /** `os.path.join(a, b)` for two components. */
  function Join(a: string, b: string): (p: string)
    ensures |b| > 0 && b[0] == '/' ==> p == b
    ensures (|b| == 0 || b[0] != '/') ==> |a| <= |p| && p[..|a|] == a
  {
    if |b| > 0 && b[0] == '/' then b
    else if |a| == 0 || a[|a| - 1] == '/' then a + b
    else a + "/" + b
  }

  /**
   * The root `os.path.splitext` gives for a base name: the text before the
   * last '.', unless that dot has only dots before it (`.bashrc`).
   */
  function StripExtension(name: string): (root: string)
    ensures |root| <= |name| && name[..|root|] == root
  {
    var dot := RFind(name, '.');
    if dot >= 0 && exists j :: 0 <= j < dot && name[j] != '.' then name[..dot] else name
  }

  /** The last '/' of `a + "/" + b` is the inserted one when `b` has none. */
  lemma RFindAfterSeparator(a: string, b: string, c: char)
    requires c !in b
    ensures RFind(a + [c] + b, c) == |a|
  {
    var s := a + [c] + b;
    var r := RFind(s, c);
    assert s[|a|] == c;
  }

  /** A name joined below a directory is that path's base name. */
  lemma {:induction false} BasenameOfJoin(dir: string, name: string)
    requires '/' !in name
    ensures Basename(Join(dir, name)) == name
  {
    if |dir| == 0 {
    } else if dir[|dir| - 1] == '/' {
      RFindAfterSeparator(dir[..|dir| - 1], name, '/');
      assert dir[..|dir| - 1] + ['/'] + name == dir + name;
    } else {
      RFindAfterSeparator(dir, name, '/');
      assert dir + ['/'] + name == dir + "/" + name;
    }
  }

  /** The head of `x + "/" + name` for a '/'-free name is `x` without trailing slashes. */
  lemma HeadAfterSeparator(x: string, name: string, j: nat)
    requires '/' !in name
    requires j < |x| && x[j] != '/'
    ensures Head(x + ['/'] + name) == RStrip(x, '/')
  {
    var p := x + ['/'] + name;
    RFindAfterSeparator(x, name, '/');
    var head := p[..|x| + 1];
    assert head == x + ['/'];
    assert head[j] != '/';
    assert Head(p) == RStrip(head, '/');
    assert head[..|head| - 1] == x;
    assert RStrip(head, '/') == RStrip(x, '/');
  }

  /**
   * `os.path.split` of a name joined below a directory gives back the
   * directory, without trailing slashes, as the head.
   */
  lemma HeadOfJoin(dir: string, name: string, j: nat)
    requires '/' !in name
    requires j < |dir| && dir[j] != '/'
    ensures Head(Join(dir, name)) == RStrip(dir, '/')
  {
    var x := if dir[|dir| - 1] == '/' then dir[..|dir| - 1] else dir;
    JoinAsSeparated(dir, name);
    assert x[j] != '/';
    HeadAfterSeparator(x, name, j);
  }

  /** `os.path.join(dir, name)` for a '/'-free name is `dir`, less one trailing '/', then '/' and the name. */
  lemma JoinAsSeparated(dir: string, name: string)
    requires '/' !in name && |dir| > 0
    ensures var x := if dir[|dir| - 1] == '/' then dir[..|dir| - 1] else dir;
      Join(dir, name) == x + ['/'] + name && RStrip(dir, '/') == RStrip(x, '/')
  {
    if dir[|dir| - 1] == '/' {
      assert dir == dir[..|dir| - 1] + ['/'];
    }
  }

  /** Stripping the extension of `stem.ext` gives `stem`, when `ext` has no dot and `stem` is not all dots. */
  lemma {:induction false} StripExtensionOf(stem: string, ext: string)
    requires '.' !in ext
    requires exists j :: 0 <= j < |stem| && stem[j] != '.'
    ensures StripExtension(stem + "." + ext) == stem
  {
    var name := stem + "." + ext;
    assert name == stem + ['.'] + ext;
    RFindAfterSeparator(stem, ext, '.');
    var j :| 0 <= j < |stem| && stem[j] != '.';
    assert name[j] == stem[j];
    assert name[..|stem|] == stem;
  }

  /** `os.path.split("data/")[1]` is empty: a trailing slash leaves no base name. */
  lemma BasenameOfTrailingSlash(p: string)
    requires |p| > 0 && p[|p| - 1] == '/'
    ensures Basename(p) == ""
  {
  }
}
