/**
 * Path entries as the read planner receives them, and the part of Python's
 * pathlib (`PurePosixPath.name` and `.suffix`) that the compression fallback uses.
 */
module Paths {
  /** One entry of the caller's path list. */
  datatype RawPath =
    | Missing              // a `None` placeholder
    | Http(url: string)    // an entry that `is_http` recognises
    | Local(path: string)  // anything else: a path on the filesystem

  /** Index of the last `c` in `s`, or -1 when `s` holds none (Python's `str.rfind`). */
  function LastIndexOf(s: string, c: char): (i: int)
    ensures -1 <= i < |s|
    ensures i >= 0 ==> s[i] == c
    ensures forall j :: i < j < |s| ==> s[j] != c
  {
    if s == [] then -1
    else if s[|s| - 1] == c then |s| - 1
    else LastIndexOf(s[..|s| - 1], c)
  }

  /**
   * The final component of a POSIX path (`PurePosixPath(p).name`): empty
   * components and `.` components are skipped, so "a/b/" and "a/b/." both
   * name "b", and "/" and "." name nothing.
   */
  function Name(p: string): (n: string)
    ensures '/' !in n && n != "."
    decreases |p|
  {
    var k := LastIndexOf(p, '/');
    var tail := p[k + 1..];
    if tail != "" && tail != "." then tail
    else if k < 0 then ""
    else Name(p[..k])
  }

  /**
   * The extension of a file name (`PurePosixPath.suffix`): from the last dot
   * on, provided that dot is neither the first nor the last character.
   */
  function Suffix(name: string): (s: string)
  {
    var i := LastIndexOf(name, '.');
    if 0 < i < |name| - 1 then name[i..] else ""
  }

  predicate EndsWith(s: string, tail: string)
  {
    |tail| <= |s| && s[|s| - |tail|..] == tail
  }

  /** A name with no dot in it, or only a leading one, has no suffix. */
  lemma NoDotNoSuffix(name: string)
    requires forall i :: 0 < i < |name| ==> name[i] != '.'
    ensures Suffix(name) == ""
  {
  }

  /**
   * A non-empty suffix is a dot followed by at least one character, none of
   * them a dot, that ends the name and leaves something before it.
   */
  lemma SuffixShape(name: string)
    ensures var s := Suffix(name);
      s != "" ==> |s| >= 2 && |s| < |name| && s[0] == '.' && '.' !in s[1..] && EndsWith(name, s)
  {
    var i := LastIndexOf(name, '.');
    var s := Suffix(name);
    if s != "" {
      assert s == name[i..];
      forall j | 0 <= j < |s| - 1 ensures s[1..][j] != '.' {
        assert s[1..][j] == name[i + 1 + j];
      }
    }
  }

  /** The name of "dir/n" is n whenever n is a proper component. */
  lemma {:induction false} NameOfJoin(dir: string, n: string)
    requires '/' !in n && n != "" && n != "."
    ensures Name(dir + "/" + n) == n
  {
    var p := dir + "/" + n;
    var k := LastIndexOf(p, '/');
    assert p[|dir|] == '/';
    forall j | |dir| < j < |p| ensures p[j] != '/' {
      assert p[j] == n[j - |dir| - 1];
    }
    assert k == |dir|;
    assert p[k + 1..] == n;
  }

  /** A plain file name with no directory part names itself. */
  lemma NameOfPlain(n: string)
    requires '/' !in n && n != "" && n != "."
    ensures Name(n) == n
  {
    var k := LastIndexOf(n, '/');
    assert k == -1;
    assert n[k + 1..] == n;
  }
}
