/**
 POSIX path manipulation. `Join` is `os.path.join` with two components, as
 the model loader calls it (Python's `posixpath`). `BaseName` is a
 proof device: the loader never calls it, but the proofs use it to
 name the last component of a joined path.
 */
module Paths {

  type Path = string

  const Sep: char := '/'

  predicate IsAbsolute(p: Path) {
    |p| > 0 && p[0] == Sep
  }

  /** `posixpath.join(a, b)`: an absolute `b` replaces `a`; otherwise `b` is
      appended, with a separator inserted unless `a` is empty or already ends
      in one. */
  function Join(a: Path, b: Path): (r: Path)
    ensures |b| <= |r| && r[|r| - |b|..] == b
    ensures IsAbsolute(b) ==> r == b
    ensures !IsAbsolute(b) ==> a <= r && |r| <= |a| + 1 + |b|
  {
    if IsAbsolute(b) then b
    else if a == [] || a[|a| - 1] == Sep then a + b
    else a + [Sep] + b
  }

  /** Joining onto a directory written without a trailing separator inserts
      exactly one separator. */
  lemma JoinRelative(dir: Path, name: Path)
    requires dir != [] && dir[|dir| - 1] != Sep
    requires name != [] && name[0] != Sep
    ensures Join(dir, name) == dir + "/" + name
  {
  }

  /** Everything after the last separator, as `posixpath.basename` gives it. */
  function BaseName(p: Path): (r: Path)
    ensures Sep !in r
    ensures |r| <= |p| && r == p[|p| - |r|..]
    ensures |r| < |p| ==> p[|p| - |r| - 1] == Sep
  {
    if |p| == 0 then []
    else if p[|p| - 1] == Sep then []
    else BaseName(p[..|p| - 1]) + [p[|p| - 1]]
  }

  /** A separator-free name placed right after a separator (or at the start)
      is exactly the base name of the result. */
  lemma {:induction false} BaseNameAfterSeparator(x: Path, name: Path)
    requires x == [] || x[|x| - 1] == Sep
    requires Sep !in name
    ensures BaseName(x + name) == name
  {
    if name == [] {
      assert x + name == x;
    } else {
      var init, c := name[..|name| - 1], name[|name| - 1];
      assert name == init + [c];
      assert c != Sep;
      BaseNameAfterSeparator(x, init);
      assert x + name == (x + init) + [c];
    }
  }

  /** Joining a directory with a plain file name yields a path whose base
      name is that file name, whatever the directory. */
  lemma {:induction false} BaseNameOfJoin(dir: Path, name: Path)
    requires name != [] && Sep !in name
    ensures BaseName(Join(dir, name)) == name
    ensures dir <= Join(dir, name)
  {
    assert !IsAbsolute(name);
    if dir == [] || dir[|dir| - 1] == Sep {
      BaseNameAfterSeparator(dir, name);
    } else {
      assert dir + [Sep] + name == (dir + [Sep]) + name;
      BaseNameAfterSeparator(dir + [Sep], name);
    }
  }
}
