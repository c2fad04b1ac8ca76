/** The last segment of a file path, as used for a pin's display name.
    This is a simplified POSIX `basename`: the text after the last '/'. */
module PosixPath {

  const Separator: char := '/'

  /** The suffix of `path` that follows its last separator (all of `path`
      when it has none). The three ensures together pin the result down
      uniquely; see BasenameUnique. */
  function Basename(path: string): (name: string)
    ensures Separator !in name
    ensures |name| <= |path| && path[|path| - |name|..] == name
    ensures |name| < |path| ==> path[|path| - |name| - 1] == Separator
    decreases |path|
  {
    if |path| == 0 || path[|path| - 1] == Separator then ""
    else
      var init := path[..|path| - 1];
      var name := Basename(init) + [path[|path| - 1]];
      assert path[|path| - |name|..] == init[|init| - |name| + 1..] + [path[|path| - 1]];
      name
  }

  /** Any separator-free suffix of `path` that is either all of `path` or
      preceded by a separator is the basename. */
  lemma {:induction false} BasenameUnique(path: string, name: string)
    requires Separator !in name
    requires |name| <= |path| && path[|path| - |name|..] == name
    requires |name| < |path| ==> path[|path| - |name| - 1] == Separator
    ensures Basename(path) == name
    decreases |path|
  {
    if |path| > 0 && path[|path| - 1] != Separator {
      var init, front := path[..|path| - 1], name[..|name| - 1];
      assert path == init + [path[|path| - 1]];
      assert name == front + [path[|path| - 1]];
      assert init[|init| - |front|..] == front;
      BasenameUnique(init, front);
    }
  }

  /** The display name of `dir/name` is `name` whenever `name` holds no separator. */
  lemma BasenameOfJoin(dir: string, name: string)
    requires Separator !in name
    ensures Basename(dir + [Separator] + name) == name
  {
    var path := dir + [Separator] + name;
    assert path[|path| - |name|..] == name;
    assert path[|path| - |name| - 1] == Separator;
    BasenameUnique(path, name);
  }
}
