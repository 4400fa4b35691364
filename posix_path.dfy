/**
 * The two POSIX path operations `download_file` relies on: `os.path.basename`,
 * the part of a path after its last `/`, and two-component `os.path.join`.
 */
module PosixPath {

  const Sep: char := '/'

  /** Python's `s.rfind(c)`: the index of the last `c` in `s`, or -1. */
  function RFind(s: string, c: char): (r: int)
    ensures -1 <= r < |s|
    ensures r >= 0 ==> s[r] == c
    ensures forall k :: r < k < |s| ==> s[k] != c
  {
    if s == [] then -1
    else if s[|s| - 1] == c then |s| - 1
    else RFind(s[..|s| - 1], c)
  }

  /** `os.path.basename(p)`: `p[p.rfind('/') + 1:]`. The result is the longest
    * suffix of `p` holding no separator: it has none, and the character just
    * before it, when there is one, is a separator. */
  function Basename(p: string): (name: string)
    ensures Sep !in name
    ensures |name| <= |p| && p[|p| - |name|..] == name
    ensures |name| < |p| ==> p[|p| - |name| - 1] == Sep
  {
    p[RFind(p, Sep) + 1..]
  }

  /** `os.path.join(a, b)`: an absolute `b` replaces `a`; otherwise `b` is
    * appended, with a separator unless `a` is empty or already ends in one. */
  function Join(a: string, b: string): string {
    if |b| > 0 && b[0] == Sep then b
    else if a == "" || a[|a| - 1] == Sep then a + b
    else a + [Sep] + b
  }

  /** The conditions Basename's contract states determine its result. */
  lemma BasenameUnique(p: string, name: string)
    requires Sep !in name
    requires |name| <= |p| && p[|p| - |name|..] == name
    requires |name| < |p| ==> p[|p| - |name| - 1] == Sep
    ensures Basename(p) == name
  {
    var b := Basename(p);
    assert |b| == |name|;
  }

  /** Joining a separator-free name onto any directory keeps that name as the
    * base name of the result: the name can be read back from the path. */
  lemma BasenameOfJoin(dir: string, name: string)
    requires Sep !in name
    ensures Basename(Join(dir, name)) == name
  {
    var path := Join(dir, name);
    assert |name| > 0 ==> name[0] != Sep;
    if dir == "" {
      assert path == name;
    } else if dir[|dir| - 1] == Sep {
      assert path == dir + name;
      assert path[|path| - |name|..] == name;
    } else {
      assert path == dir + [Sep] + name;
      assert path[|path| - |name|..] == name;
    }
    BasenameUnique(path, name);
  }

  /** Joining a separator-free name onto a directory that neither is empty nor
    * ends in a separator puts exactly one separator between them. */
  lemma JoinName(dir: string, name: string)
    requires Sep !in name
    requires dir != "" && dir[|dir| - 1] != Sep
    ensures Join(dir, name) == dir + "/" + name
  {
    assert |name| > 0 ==> name[0] != Sep;
  }
}
