/**
 * POSIX `path.join(directory, name)` followed by its normalisation: the name is split at `/`,
 * empty and `.` segments vanish and `..` steps up one directory (never above the root).
 * Absolute paths are sequences of segments.
 */
module Paths {
  import opened Text

  /** A segment of a normalised path: a directory entry name. */
  predicate IsSegment(seg: string)
  {
    seg != "" && seg != "." && seg != ".." && '/' !in seg
  }

  predicate IsNormal(path: seq<string>)
  {
    forall i :: 0 <= i < |path| ==> IsSegment(path[i])
  }

  /** Folds the segments of a relative path onto the normalised path `at`. */
  function Walk(at: seq<string>, segs: seq<string>): (r: seq<string>)
    requires IsNormal(at)
    requires forall i :: 0 <= i < |segs| ==> '/' !in segs[i]
    ensures IsNormal(r)
    decreases |segs|
  {
    if segs == [] then at
    else if segs[0] == "" || segs[0] == "." then Walk(at, segs[1..])
    else if segs[0] == ".." then Walk(if at == [] then [] else at[..|at| - 1], segs[1..])
    else Walk(at + [segs[0]], segs[1..])
  }

  /** `path.join(dir, name)` as a normalised absolute path. */
  function Resolve(dir: seq<string>, name: string): (r: seq<string>)
    requires IsNormal(dir)
    ensures IsNormal(r)
  {
    Walk(dir, SplitOn(name, '/'))
  }

  /** Where a file name joined onto a directory lands. */
  datatype Target = InDirectory(name: string) | Elsewhere(path: seq<string>)

  function Locate(dir: seq<string>, name: string): (r: Target)
    requires IsNormal(dir)
    ensures r.InDirectory? ==> IsSegment(r.name) && Resolve(dir, name) == dir + [r.name]
    ensures r.Elsewhere? ==> r.path == Resolve(dir, name)
                             && (|r.path| == |dir| + 1 ==> r.path[..|dir|] != dir)
  {
    var p := Resolve(dir, name);
    if |p| == |dir| + 1 && p[..|dir|] == dir then InDirectory(p[|dir|]) else Elsewhere(p)
  }

  /** A name that is a plain segment stays directly inside the directory. */
  lemma ChildStaysInside(dir: seq<string>, name: string)
    requires IsNormal(dir)
    requires IsSegment(name)
    ensures Resolve(dir, name) == dir + [name]
    ensures Locate(dir, name) == InDirectory(name)
  {
    SplitWithoutSeparator(name, '/');
    assert [name][1..] == [];
    assert Walk(dir, [name]) == Walk(dir + [name], []);
    assert (dir + [name])[..|dir|] == dir;
  }

  /** The path ends with the last segment of the walk when that segment is a plain name. */
  lemma {:induction false} WalkEndsWithLast(at: seq<string>, segs: seq<string>)
    requires IsNormal(at)
    requires forall i :: 0 <= i < |segs| ==> '/' !in segs[i]
    requires |segs| >= 1 && IsSegment(segs[|segs| - 1])
    ensures var r := Walk(at, segs); |r| >= 1 && r[|r| - 1] == segs[|segs| - 1]
    decreases |segs|
  {
    if |segs| > 1 {
      var next := if segs[0] == "" || segs[0] == "." then at
                  else if segs[0] == ".." then (if at == [] then [] else at[..|at| - 1])
                  else at + [segs[0]];
      assert segs[1..][|segs[1..]| - 1] == segs[|segs| - 1];
      WalkEndsWithLast(next, segs[1..]);
    }
  }

  /**
   * Whatever comes before it, a name ending in a plain suffix such as `.json` resolves to a
   * path whose last segment ends in that suffix: joining can only change the directory.
   */
  lemma LastSegmentKeepsSuffix(dir: seq<string>, prefix: string, suffix: string)
    requires IsNormal(dir)
    requires IsSegment(suffix)
    ensures var p := Resolve(dir, prefix + suffix); |p| >= 1 && EndsWith(p[|p| - 1], suffix)
  {
    var parts := SplitOn(prefix + suffix, '/');
    SplitLastKeepsSuffix(prefix, suffix, '/');
    var last := parts[|parts| - 1];
    assert last != "." && last != "..";
    WalkEndsWithLast(dir, parts);
  }

  /** An unvalidated `../` prefix steps out of the directory into its parent. */
  lemma DotDotEscapes(dir: seq<string>, name: string)
    requires IsNormal(dir) && |dir| >= 1
    requires IsSegment(name)
    ensures Resolve(dir, "../" + name) == dir[..|dir| - 1] + [name]
    ensures Locate(dir, "../" + name) == Elsewhere(dir[..|dir| - 1] + [name])
  {
    assert "../" + name == ".." + ['/'] + name;
    SplitAfterPiece("..", '/', name);
    SplitWithoutSeparator(name, '/');
    var parent := dir[..|dir| - 1];
    assert SplitOn("../" + name, '/') == ["..", name];
    assert ["..", name][1..] == [name] && [name][1..] == [];
    assert Walk(dir, ["..", name]) == Walk(parent, [name]);
    assert Walk(parent, [name]) == Walk(parent + [name], []);
  }
}
