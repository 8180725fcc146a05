/**
 * The path getters of a note: `folder`, `filename`, `fullname` and
 * `extension`, each computed from `lastIndexOf` of `/` or `.` and `slice`.
 */
module Paths {
  import opened Strings

  /** `folder`: the text before the last `/`, or "" when the path has none. */
  function FolderOf(path: string): (r: string)
    ensures |r| <= |path| && r == path[..|r|]
    ensures '/' !in path ==> r == ""
  {
    var i := LastIndexOf(path, '/');
    if i != -1 then Slice(path, 0, i) else ""
  }

  /** `filename`: the text after the last `/`, the whole path when it has none. */
  function FilenameOf(path: string): (r: string)
    ensures |r| <= |path| && r == path[|path| - |r|..]
    ensures '/' !in r
  {
    Slice(path, LastIndexOf(path, '/') + 1, |path|)
  }

  /**
   * `fullname`: the filename up to its last `.`. With no `.` in the filename
   * this is `slice(0, -1)`, which drops the filename's last character.
   */
  function FullnameOf(path: string): (r: string)
    ensures '/' !in r
  {
    var f := FilenameOf(path);
    Slice(f, 0, LastIndexOf(f, '.'))
  }

  /** `extension`: the filename after its last `.`, the whole filename when it has none. */
  function ExtensionOf(path: string): (r: string)
    ensures '.' !in r && '/' !in r
  {
    var f := FilenameOf(path);
    Slice(f, LastIndexOf(f, '.') + 1, |f|)
  }

  /** A path with a `/` is its folder, a `/` and its filename. */
  lemma FolderFilenameJoin(path: string)
    requires '/' in path
    ensures FolderOf(path) + "/" + FilenameOf(path) == path
  {
    var i := LastIndexOf(path, '/');
    assert path == path[..i] + [path[i]] + path[i + 1..];
  }

  /** A path without `/` is all filename, in the root folder "". */
  lemma NoFolder(path: string)
    requires '/' !in path
    ensures FolderOf(path) == "" && FilenameOf(path) == path
  {
  }

  /** The last `c` of `a + [c] + b` is the one after `a` when `b` holds none. */
  lemma LastIndexOfJoin(a: string, c: char, b: string)
    requires c !in b
    ensures LastIndexOf(a + [c] + b, c) == |a|
  {
    var s := a + [c] + b;
    assert s[|a|] == c;
    assert s[|a| + 1..] == b;
  }

  /** Splitting at the last `/` inverts joining with `/`. */
  lemma {:induction false} FolderFilenameOfJoin(folder: string, name: string)
    requires '/' !in name
    ensures FolderOf(folder + "/" + name) == folder
    ensures FilenameOf(folder + "/" + name) == name
  {
    var p := folder + "/" + name;
    LastIndexOfJoin(folder, '/', name);
    assert p[..|folder|] == folder;
    assert p[|folder| + 1..] == name;
  }

  /** A filename with a `.` is its fullname, a `.` and its extension. */
  lemma FullnameExtensionJoin(path: string)
    requires '.' in FilenameOf(path)
    ensures FullnameOf(path) + "." + ExtensionOf(path) == FilenameOf(path)
  {
    var f := FilenameOf(path);
    var i := LastIndexOf(f, '.');
    SplitAround(f, i);
  }

  /** Any string is its part before index `i`, the character at `i` and its part after. */
  lemma SplitAround(f: string, i: int)
    requires 0 <= i < |f|
    ensures Slice(f, 0, i) + [f[i]] + Slice(f, i + 1, |f|) == f
  {
    SliceWithin(f, 0, i);
    SliceWithin(f, i + 1, |f|);
    assert f == f[..i] + [f[i]] + f[i + 1..];
  }

  /**
   * With no `.` in the filename, the extension is the whole filename and the
   * fullname is the filename without its last character.
   */
  lemma NoDotQuirk(path: string)
    requires '.' !in FilenameOf(path)
    ensures ExtensionOf(path) == FilenameOf(path)
    ensures FilenameOf(path) != "" ==> FullnameOf(path) == FilenameOf(path)[..|FilenameOf(path)| - 1]
    ensures FilenameOf(path) == "" ==> FullnameOf(path) == ""
  {
  }

  /** Splitting at the last `.` inverts joining with `.`, for a `.`-free right part. */
  lemma DotSplitJoin(stem: string, ext: string)
    requires '.' !in ext
    ensures var f := stem + "." + ext;
      Slice(f, 0, LastIndexOf(f, '.')) == stem && Slice(f, LastIndexOf(f, '.') + 1, |f|) == ext
  {
    var f := stem + "." + ext;
    LastIndexOfJoin(stem, '.', ext);
    SliceWithin(f, 0, |stem|);
    SliceWithin(f, |stem| + 1, |f|);
    assert f[..|stem|] == stem;
    assert f[|stem| + 1..] == ext;
  }

  /** Splitting a path at its last `/` and its filename at the last `.` inverts joining them. */
  lemma {:induction false} FullnameExtensionOfJoin(folder: string, stem: string, ext: string)
    requires '/' !in stem && '/' !in ext && '.' !in ext
    ensures FolderOf(folder + "/" + (stem + "." + ext)) == folder
    ensures FilenameOf(folder + "/" + (stem + "." + ext)) == stem + "." + ext
    ensures FullnameOf(folder + "/" + (stem + "." + ext)) == stem
    ensures ExtensionOf(folder + "/" + (stem + "." + ext)) == ext
  {
    var f := stem + "." + ext;
    assert '/' !in f by {
      assert f == stem + ['.'] + ext;
    }
    FolderFilenameOfJoin(folder, f);
    DotSplitJoin(stem, ext);
  }
}
