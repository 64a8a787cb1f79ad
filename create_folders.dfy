/**
 * Folder hierarchy from an image's file name (the "Create Folders" command):
 * the path without its extension is cut at the delimiter, each cumulative
 * prefix of the pieces becomes a directory, and the image is moved to
 * "Image.tif" in the deepest one.
 *
 * The file system is a set of existing directory paths; whether the copy
 * succeeds is I/O and is a parameter.
 */
module CreateFolders {
  import opened Regions
  import Text

  /** `lastIndexOf(c)`: the position of the last `c` in `s`, which must occur. */
  function LastIndexOf(s: string, c: char): (i: nat)
    requires c in s
    ensures i < |s| && s[i] == c
    ensures forall j :: i < j < |s| ==> s[j] != c
  {
    if s[|s| - 1] == c then |s| - 1
    else
      assert c in s[..|s| - 1] by {
        var k :| 0 <= k < |s| && s[k] == c;
        assert s[..|s| - 1][k] == c;
      }
      LastIndexOf(s[..|s| - 1], c)
  }

  /** The path without its extension: everything before the last '.'. */
  function Stem(filePath: string): (r: string)
    requires '.' in filePath
    ensures |r| < |filePath| && filePath == r + filePath[|r|..] && filePath[|r|] == '.'
    ensures forall j :: |r| < j < |filePath| ==> filePath[j] != '.'
  {
    var i := LastIndexOf(filePath, '.');
    assert filePath == filePath[..i] + filePath[i..];
    filePath[..i]
  }

  /** `Paths.get(a, b).toString()`: the two parts joined by '/', an empty part being dropped. */
  function PathJoin(a: string, b: string): string
  {
    if a == "" then b else if b == "" then a else a + "/" + b
  }

  /** The directory reached after the given components, starting from "". */
  function Dir(components: seq<string>): string
  {
    if |components| == 0 then ""
    else PathJoin(Dir(components[..|components| - 1]), components[|components| - 1])
  }

  /** The directories visited in order: c1, c1/c2, ..., c1/.../ck. */
  function Prefixes(components: seq<string>): (r: seq<string>)
    ensures |r| == |components|
    ensures forall k :: 0 <= k < |components| ==> r[k] == Dir(components[..k + 1])
  {
    seq(|components|, k requires 0 <= k < |components| => Dir(components[..k + 1]))
  }

  /** The directories that a walk over `visited` creates: each one not already present when reached. */
  function Missing(present: set<string>, visited: seq<string>): seq<string>
  {
    if |visited| == 0 then []
    else
      var init := visited[..|visited| - 1];
      var last := visited[|visited| - 1];
      Missing(present, init) + if last in present || last in init then [] else [last]
  }

  /** The walk creates exactly the visited directories that did not exist, each once. */
  lemma {:induction false} MissingExact(present: set<string>, visited: seq<string>)
    ensures forall d :: d in Missing(present, visited) <==> d in visited && d !in present
    ensures forall j, k :: 0 <= j < k < |Missing(present, visited)| ==>
      Missing(present, visited)[j] != Missing(present, visited)[k]
  {
    if |visited| > 0 {
      var init := visited[..|visited| - 1];
      var last := visited[|visited| - 1];
      MissingExact(present, init);
      assert visited == init + [last];
    }
  }

  /** Each visited directory extends the one before it. */
  lemma PrefixesNest(components: seq<string>, k: int)
    requires 0 <= k < |components| - 1
    ensures var p := Prefixes(components);
            |p[k]| <= |p[k + 1]| && p[k + 1][..|p[k]|] == p[k]
  {
    var a := Dir(components[..k + 1]);
    var b := components[k + 1];
    assert components[..k + 2][..k + 1] == components[..k + 1];
    assert Dir(components[..k + 2]) == PathJoin(a, b);
  }

  /** With no empty component the deepest directory is the components joined by '/'. */
  lemma {:induction false} DirIsJoin(components: seq<string>)
    requires forall k :: 0 <= k < |components| ==> components[k] != ""
    ensures Dir(components) == Text.Join(components, "/")
    decreases |components|
  {
    if |components| > 1 {
      var init := components[..|components| - 1];
      DirIsJoin(init);
      assert Dir(init) == Text.Join(init, "/");
      Text.JoinConcat(init, [components[|components| - 1]], "/");
      assert init + [components[|components| - 1]] == components;
      assert |Text.Join(init, "/")| > 0 by {
        JoinNonEmpty(init, "/");
      }
    } else if |components| == 1 {
      assert components[..0] == [];
    }
  }

  lemma {:induction false} JoinNonEmpty(parts: seq<string>, sep: string)
    requires |parts| >= 1 && parts[0] != ""
    ensures |Text.Join(parts, sep)| > 0
  {
    if |parts| > 1 {
      assert Text.Join(parts, sep) == parts[0] + sep + Text.Join(parts[1..], sep);
    }
  }

  /** The effect of one run on the file system and the image file. */
  datatype Moved = Moved(created: seq<string>, dirs: set<string>, target: string, deleted: bool)

  /** One more component visits the directory under the one reached so far. */
  lemma VisitStep(components: seq<string>, i: int)
    requires 0 <= i < |components|
    ensures var visited := Prefixes(components);
            var next := PathJoin(Dir(components[..i]), components[i]);
            && Dir(components[..i + 1]) == next
            && visited[..i + 1] == visited[..i] + [next]
            && visited[..i + 1][..i] == visited[..i]
  {
    assert components[..i + 1][..i] == components[..i];
  }

  /**
   * The directory loop of `process`: visits c1, c1/c2, ..., creating each
   * directory that does not exist yet, and ends in the deepest one.
   */
  method Walk(components: seq<string>, dirs: set<string>) returns (currentDir: string, present: set<string>,
                                                                  created: seq<string>)
    ensures currentDir == Dir(components)
    ensures present == dirs + (set d | d in Prefixes(components))
    ensures created == Missing(dirs, Prefixes(components))
    ensures forall d :: d in created ==> d !in dirs
  {
    ghost var visited := Prefixes(components);
    currentDir := "";
    present := dirs;
    created := [];
    for i := 0 to |components|
      invariant currentDir == Dir(components[..i])
      invariant present == dirs + (set d | d in visited[..i])
      invariant created == Missing(dirs, visited[..i])
      invariant forall d :: d in created ==> d !in dirs
    {
      VisitStep(components, i);
      currentDir := PathJoin(currentDir, components[i]);
      if currentDir !in present {
        present := present + {currentDir};
        created := created + [currentDir];
      }
    }
    assert components[..|components|] == components;
    assert visited[..|components|] == visited;
  }

  /**
   * `process`: strips the extension, splits at the delimiter, visits each
   * cumulative directory creating it if missing, copies the image to
   * "Image.tif" in the last one and deletes the original only if the copy
   * succeeded. A file path without a '.' throws before anything is done.
   */
  method Process(filePath: string, delimiter: char, dirs: set<string>, copySucceeds: bool) returns (m: Option<Moved>)
    ensures m.None? <==> '.' !in filePath
    ensures m.Some? ==>
            var components := Text.Split(Stem(filePath), delimiter);
            && m.value.created == Missing(dirs, Prefixes(components))
            && m.value.dirs == dirs + (set d | d in Prefixes(components))
            && m.value.target == PathJoin(Dir(components), "Image.tif")
    ensures m.Some? ==> forall d :: d in m.value.created ==> d !in dirs
    ensures m.Some? ==> m.value.deleted == copySucceeds
  {
    if '.' !in filePath {
      return None;
    }
    var stem := filePath[..LastIndexOf(filePath, '.')];
    var dirPath := Text.Split(stem, delimiter);
    var currentDir, present, created := Walk(dirPath, dirs);
    m := Some(Moved(created, present, PathJoin(currentDir, "Image.tif"), copySucceeds));
  }
}
