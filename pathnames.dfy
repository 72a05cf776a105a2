/**
 * The string side of `pathlib` that the pipeline relies on: the final component
 * of a path, its `suffix` and `stem`, and joining a folder with a file name.
 * Paths are plain strings with '/' as the separator.
 */
module PathNames {

  /** `s.rfind(c)`: the index of the last `c` in `s`, or -1 when there is none. */
  function RFind(s: string, c: char): (r: int)
    ensures -1 <= r < |s|
    ensures r >= 0 ==> s[r] == c
    ensures forall i :: r < i < |s| ==> s[i] != c
    decreases |s|
  {
    if s == [] then -1
    else if s[|s| - 1] == c then |s| - 1
    else RFind(s[..|s| - 1], c)
  }

  /** Whether the last dot of `name` splits it into a non-empty stem and suffix (pathlib's rule). */
  predicate HasSuffix(name: string) {
    0 < RFind(name, '.') < |name| - 1
  }

  /**
   * `PurePath.suffix`: from the last dot to the end, provided that dot is neither
   * the first nor the last character; otherwise empty (".jpg" and "a." have none).
   */
  function Suffix(name: string): (r: string)
    ensures HasSuffix(name) ==> |r| >= 2 && r[0] == '.' && forall i :: 1 <= i < |r| ==> r[i] != '.'
    ensures !HasSuffix(name) ==> r == ""
    ensures Stem(name) + r == name
  {
    if HasSuffix(name) then name[RFind(name, '.')..] else ""
  }

  /** `PurePath.stem`: the name without its suffix. */
  function Stem(name: string): string {
    if HasSuffix(name) then name[..RFind(name, '.')] else name
  }

  /** `rfind` is pinned down by any position holding `c` with no `c` after it. */
  lemma RFindAt(s: string, c: char, k: nat)
    requires k < |s| && s[k] == c
    requires forall i :: k < i < |s| ==> s[i] != c
    ensures RFind(s, c) == k
  {
  }

  /**
   * `PurePath.name` on a POSIX path: the last component once empty components
   * (repeated or trailing slashes) and "." components are dropped; "" when none is left,
   * as for "", ".", and "/".
   */
  function FinalComponent(path: string): (r: string)
    ensures forall k :: 0 <= k < |r| ==> r[k] != '/'
    ensures r != "."
    ensures |r| <= |path|
    decreases |path|
  {
    if path == [] then ""
    else if path[|path| - 1] == '/' then FinalComponent(path[..|path| - 1])
    else
      var cut := RFind(path, '/') + 1;
      if path[cut..] == "." then FinalComponent(path[..cut]) else path[cut..]
  }

  /** A path ending in a proper component names that component: the text after the last '/'. */
  lemma FinalComponentOfName(prefix: string, name: string)
    requires prefix == [] || prefix[|prefix| - 1] == '/'
    requires name != [] && name != "." && forall k :: 0 <= k < |name| ==> name[k] != '/'
    ensures FinalComponent(prefix + name) == name
  {
    var path := prefix + name;
    assert path[|path| - 1] == name[|name| - 1];
    if prefix != [] {
      RFindAt(path, '/', |prefix| - 1);
    } else {
      assert path == name;
      assert RFind(path, '/') == -1;
    }
    assert path[RFind(path, '/') + 1..] == name;
  }

  /** A trailing slash does not change the name. */
  lemma FinalComponentTrailingSlash(path: string)
    ensures FinalComponent(path + "/") == FinalComponent(path)
  {
    assert (path + "/")[..|path|] == path;
  }

  /** A trailing "." component does not change the name. */
  lemma FinalComponentTrailingDot(path: string)
    ensures FinalComponent(path + "/.") == FinalComponent(path + "/")
    ensures FinalComponent(path + "/.") == FinalComponent(path)
  {
    var p := path + "/.";
    RFindAt(p, '/', |path|);
    assert p[|path| + 1..] == ".";
    assert p[..|path| + 1] == path + "/";
    FinalComponentTrailingSlash(path);
  }

  /** The current directory and the root have an empty name. */
  lemma FinalComponentEmpty()
    ensures FinalComponent("") == "" && FinalComponent(".") == "" && FinalComponent("/") == ""
  {
    assert RFind(".", '/') == -1;
    assert "."[0..] == ".";
    assert "."[..0] == "";
    assert "/"[..0] == "";
  }

  /** `folder / name`. */
  function Join(folder: string, name: string): string {
    folder + "/" + name
  }

  /** Two names joined to the same folder give the same path only if the names are equal. */
  lemma JoinInjective(folder: string, a: string, b: string)
    ensures Join(folder, a) == Join(folder, b) <==> a == b
  {
    if Join(folder, a) == Join(folder, b) {
      var k := |folder| + 1;
      assert a == Join(folder, a)[k..];
      assert b == Join(folder, b)[k..];
    }
  }

  /** The name of `folder / name` is `name` when `name` is one proper component. */
  lemma FinalComponentOfJoin(folder: string, name: string)
    requires name != [] && name != "." && forall k :: 0 <= k < |name| ==> name[k] != '/'
    ensures FinalComponent(Join(folder, name)) == name
  {
    var prefix := folder + "/";
    assert Join(folder, name) == prefix + name;
    FinalComponentOfName(prefix, name);
  }
}
