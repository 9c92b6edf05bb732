/**
 * The save system's path helpers: the path a mesh asset is saved under, the
 * directory the editor window recovers from a saved asset's path, and the
 * path the FBX export is written to.
 *
 * C# strings may be null; `Text` keeps the null apart from the empty string.
 */
module AssetPaths {
  /** A C# string reference: null, or some text. */
  datatype Text = Null | Str(s: string)

  /** string.IsNullOrEmpty, which the save system uses for "no directory". */
  predicate IsNullOrEmpty(t: Text) {
    t.Null? || t.s == ""
  }

  predicate EndsWith(s: string, suffix: string) {
    |suffix| <= |s| && s[|s| - |suffix|..] == suffix
  }

  /**
   * GetAssetPath (and the path ConstructVoxelObject builds inline for the
   * ".asset"): "Assets/{name}.{ext}" without a directory,
   * "Assets/{dir}/{name}.{ext}" with one.
   */
  function GetAssetPath(meshName: string, saveDirectory: Text, extension: string): (r: string)
    ensures |r| > 7 && r[..7] == "Assets/"
    ensures EndsWith(r, "." + extension)
  {
    var tail := meshName + "." + extension;
    var r := if IsNullOrEmpty(saveDirectory) then "Assets/" + tail else "Assets/" + saveDirectory.s + "/" + tail;
    assert r[|r| - |"." + extension|..] == "." + extension;
    r
  }

  // ---------------------------------------------------------------------------
  // Searching for a character

  /** string.IndexOf(c): the first index holding `c`, or -1 when there is none. */
  function IndexOf(s: string, c: char): (r: int)
    ensures -1 <= r < |s|
    ensures r >= 0 ==> s[r] == c
    ensures forall j :: 0 <= j < |s| && (r == -1 || j < r) ==> s[j] != c
  {
    if s == [] then -1
    else if s[0] == c then 0
    else
      var k := IndexOf(s[1..], c);
      assert forall j :: 1 <= j < |s| ==> s[j] == s[1..][j - 1];
      if k == -1 then -1 else k + 1
  }

  /** string.LastIndexOf(c): the last index holding `c`, or -1 when there is none. */
  function LastIndexOf(s: string, c: char): (r: int)
    ensures -1 <= r < |s|
    ensures r >= 0 ==> s[r] == c
    ensures forall j :: r < j < |s| ==> s[j] != c
  {
    if s == [] then -1
    else if s[|s| - 1] == c then |s| - 1
    else
      var n := |s| - 1;
      assert forall j :: 0 <= j < n ==> s[j] == s[..n][j];
      LastIndexOf(s[..n], c)
  }

  /** The first `c` after a prefix free of `c` is found at the end of that prefix. */
  lemma IndexOfAfter(a: string, b: string, c: char)
    requires c !in a && |b| > 0 && b[0] == c
    ensures IndexOf(a + b, c) == |a|
  {
    var s := a + b;
    assert s[|a|] == c;
  }

  /** The last `c` before a suffix free of `c` is found just before that suffix. */
  lemma LastIndexOfBefore(a: string, b: string, c: char)
    requires c !in b
    ensures LastIndexOf(a + [c] + b, c) == |a|
  {
    var s := a + [c] + b;
    assert s[|a|] == c;
  }

  // ---------------------------------------------------------------------------
  // Recovering the directory

  /**
   * What ExtractDirectoryFromPath gives: null for no path, the text between
   * the first and last '/', or the ArgumentOutOfRangeException Substring
   * throws when that text would have a negative length.
   */
  datatype Extracted = NoDirectory | Directory(dir: string) | SubstringOutOfRange

  /**
   * ExtractDirectoryFromPath as written: Substring(first + 1, last - first - 1)
   * with first and last the indices of the first and last '/'.
   */
  function ExtractDirectoryFromPath(path: Text): (r: Extracted)
    ensures r.NoDirectory? <==> IsNullOrEmpty(path)
    ensures r.Directory? ==>
              var first, last := IndexOf(path.s, '/'), LastIndexOf(path.s, '/');
              0 <= first < last && r.dir == path.s[first + 1..last]
  {
    if IsNullOrEmpty(path) then NoDirectory
    else
      var first, last := IndexOf(path.s, '/'), LastIndexOf(path.s, '/');
      if last - first - 1 < 0 then SubstringOutOfRange
      else
        assert path.s[last] == '/';
        Directory(path.s[first + 1..last])
  }

  /** Substring throws exactly for a path with fewer than two '/'. */
  lemma ExtractNeedsTwoSlashes(path: string)
    requires path != ""
    ensures ExtractDirectoryFromPath(Str(path)).SubstringOutOfRange? <==>
              !exists i, j :: 0 <= i < j < |path| && path[i] == '/' && path[j] == '/'
  {
    var first, last := IndexOf(path, '/'), LastIndexOf(path, '/');
    if exists i, j :: 0 <= i < j < |path| && path[i] == '/' && path[j] == '/' {
      var i, j :| 0 <= i < j < |path| && path[i] == '/' && path[j] == '/';
      assert first <= i;
      assert j <= last;
    } else if first >= 0 {
      assert last >= 0;
      assert !(first < last);
    }
  }

  /**
   * For a saved asset whose name and extension hold no '/', the directory the
   * window recovers is the one the asset was saved under.
   */
  lemma ExtractInvertsGetAssetPath(meshName: string, dir: string, extension: string)
    requires dir != "" && '/' !in meshName + "." + extension
    ensures ExtractDirectoryFromPath(Str(GetAssetPath(meshName, Str(dir), extension))) == Directory(dir)
  {
    var tail := meshName + "." + extension;
    var path := GetAssetPath(meshName, Str(dir), extension);
    assert path == "Assets" + ("/" + dir + "/" + tail);
    IndexOfAfter("Assets", "/" + dir + "/" + tail, '/');
    assert path == ("Assets/" + dir) + ['/'] + tail;
    LastIndexOfBefore("Assets/" + dir, tail, '/');
    assert path[7..7 + |dir|] == dir;
  }

  /**
   * An asset saved without a directory has a path with a single '/', which
   * ExtractDirectoryFromPath cannot take apart.
   */
  lemma ExtractFailsWithoutDirectory(meshName: string, extension: string)
    requires '/' !in meshName + "." + extension
    ensures ExtractDirectoryFromPath(Str(GetAssetPath(meshName, Null, extension))).SubstringOutOfRange?
    ensures ExtractDirectoryFromPath(Str(GetAssetPath(meshName, Str(""), extension))).SubstringOutOfRange?
  {
    var tail := meshName + "." + extension;
    var path := GetAssetPath(meshName, Null, extension);
    assert path == "Assets" + ['/'] + tail;
    IndexOfAfter("Assets", ['/'] + tail, '/');
    LastIndexOfBefore("Assets", tail, '/');
  }

  /**
   * The directory of a saved asset's path, as ExtractDirectoryFromPath is
   * meant to find it: null for no path, and the empty directory (which
   * GetAssetPath reads as no directory) when the path has fewer than two '/'.
   */
  function ExtractDirectory(path: Text): (r: Text)
    ensures r.Null? <==> IsNullOrEmpty(path)
    ensures ExtractDirectoryFromPath(path).Directory? ==> r == Str(ExtractDirectoryFromPath(path).dir)
  {
    match ExtractDirectoryFromPath(path)
    case NoDirectory => Null
    case Directory(dir) => Str(dir)
    case SubstringOutOfRange => Str("")
  }

  /** Saving again under the recovered directory gives back the same path, with or without a directory. */
  lemma ExtractDirectoryRoundTrip(meshName: string, saveDirectory: Text, extension: string)
    requires '/' !in meshName + "." + extension
    ensures var path := GetAssetPath(meshName, saveDirectory, extension);
            GetAssetPath(meshName, ExtractDirectory(Str(path)), extension) == path
  {
    if IsNullOrEmpty(saveDirectory) {
      ExtractFailsWithoutDirectory(meshName, extension);
    } else {
      ExtractInvertsGetAssetPath(meshName, saveDirectory.s, extension);
    }
  }

  // ---------------------------------------------------------------------------
  // The FBX export path

  /** The FBX path ConstructVoxelObject builds, as written: ".asset" when there is no directory. */
  function FbxPathAsWritten(meshName: string, saveDirectory: Text): (r: string)
    ensures !IsNullOrEmpty(saveDirectory) ==> r == GetAssetPath(meshName, saveDirectory, "fbx")
    ensures IsNullOrEmpty(saveDirectory) ==> r == GetAssetPath(meshName, saveDirectory, "asset")
  {
    if IsNullOrEmpty(saveDirectory) then "Assets/" + meshName + ".asset"
    else "Assets/" + saveDirectory.s + "/" + meshName + ".fbx"
  }

  /** Without a directory the export is written over the mesh asset's own path, not to an ".fbx". */
  lemma FbxPathWithoutDirectory(meshName: string)
    ensures FbxPathAsWritten(meshName, Null) == GetAssetPath(meshName, Null, "asset")
    ensures !EndsWith(FbxPathAsWritten(meshName, Null), ".fbx")
  {
    var r := FbxPathAsWritten(meshName, Null);
    assert r[|r| - 1] == 't';
  }

  /** The FBX path as intended: always the ".fbx" asset path of the mesh. */
  function FbxPath(meshName: string, saveDirectory: Text): (r: string)
    ensures EndsWith(r, ".fbx")
    ensures r != GetAssetPath(meshName, saveDirectory, "asset")
    ensures !IsNullOrEmpty(saveDirectory) ==> r == FbxPathAsWritten(meshName, saveDirectory)
  {
    var r := GetAssetPath(meshName, saveDirectory, "fbx");
    var a := GetAssetPath(meshName, saveDirectory, "asset");
    assert a[|a| - 1] == 't' && r[|r| - 1] == 'x';
    r
  }
}
