/** The string derivations the script builds on `find_last` and `str.find`:
    trimming the script's directory up two folders, the parameter identifier
    taken from a shapefile path, and the aquifer name and code-table key taken
    from that identifier. The path separator (`os.sep`) is a parameter.
 */
module Paths {
  import opened PyStr

  /** `path[:find_last(path, sep)]`: everything before the last separator.
      With no separator `find_last` gives -1, and the slice drops one character. */
  function TrimLast(path: string, sep: char): (r: string)
    ensures sep in path ==>
              |r| < |path| && path[|r|] == sep && r == path[..|r|] && sep !in path[|r| + 1..]
    ensures sep !in path ==> r == path[..if |path| == 0 then 0 else |path| - 1]
  {
    OccursAtChar(path, sep);
    Slice(path, 0, LastIndex(path, [sep]))
  }

  /** The project root: the script's directory trimmed twice. */
  function ScriptRoot(scriptDir: string, sep: char): (root: string)
    ensures |root| <= |scriptDir| && root == scriptDir[..|root|]
    ensures (exists i, j :: 0 <= i < j < |scriptDir| && scriptDir[i] == sep && scriptDir[j] == sep) ==>
              |root| < |scriptDir| && scriptDir[|root|] == sep &&
              exists k :: |root| < k < |scriptDir| && scriptDir[k] == sep &&
                          forall m :: |root| < m < |scriptDir| && m != k ==> scriptDir[m] != sep
  {
    var once := TrimLast(scriptDir, sep);
    var root := TrimLast(once, sep);
    assert (exists i, j :: 0 <= i < j < |scriptDir| && scriptDir[i] == sep && scriptDir[j] == sep) ==>
             |root| < |scriptDir| && scriptDir[|root|] == sep &&
             exists k :: |root| < k < |scriptDir| && scriptDir[k] == sep &&
                         forall m :: |root| < m < |scriptDir| && m != k ==> scriptDir[m] != sep by {
      if i, j :| 0 <= i < j < |scriptDir| && scriptDir[i] == sep && scriptDir[j] == sep {
        TwoSeparators(scriptDir, sep, i, j);
      }
    }
    root
  }

  /** With two separators in the path, the first trim keeps one of them, so
      the second trim stops at the second-to-last separator. */
  lemma TwoSeparators(path: string, sep: char, i: int, j: int)
    requires 0 <= i < j < |path| && path[i] == sep && path[j] == sep
    ensures var once := TrimLast(path, sep);
            var root := TrimLast(once, sep);
            |root| < |once| < |path| && path[|root|] == sep && path[|once|] == sep &&
            forall m :: |root| < m < |path| && m != |once| ==> path[m] != sep
  {
    var once := TrimLast(path, sep);
    assert sep in path;
    forall m | |once| < m < |path|
      ensures path[m] != sep
    {
      assert path[|once| + 1..][m - |once| - 1] == path[m];
    }
    assert once[i] == sep;
    var root := TrimLast(once, sep);
    forall m | |root| < m < |path| && m != |once|
      ensures path[m] != sep
    {
      if m < |once| {
        assert once[|root| + 1..][m - |root| - 1] == path[m];
      }
    }
  }

  /** Trimming a path made of separator-free components drops its last component. */
  lemma TrimLastOfJoin(parts: seq<string>, sep: char)
    requires |parts| >= 2
    requires forall i :: 0 <= i < |parts| ==> sep !in parts[i]
    ensures TrimLast(Join(parts, sep), sep) == Join(parts[..|parts| - 1], sep)
  {
    var init, last := parts[..|parts| - 1], parts[|parts| - 1];
    assert parts == init + [last];
    JoinSnoc(init, sep, last);
    var head := Join(init, sep);
    var path := Join(parts, sep);
    assert path == head + [sep] + last;
    assert path[|head|] == sep;
    assert path[..|head|] == head;
    assert path[|head| + 1..] == last;
  }

  /** The two trims of the script's directory drop its last two components. */
  lemma ScriptRootOfJoin(parts: seq<string>, sep: char)
    requires |parts| >= 3
    requires forall i :: 0 <= i < |parts| ==> sep !in parts[i]
    ensures ScriptRoot(Join(parts, sep), sep) == Join(parts[..|parts| - 2], sep)
  {
    var shorter := parts[..|parts| - 1];
    var full, once := Join(parts, sep), Join(shorter, sep);
    assert TrimLast(full, sep) == once by {
      TrimLastOfJoin(parts, sep);
    }
    assert TrimLast(once, sep) == Join(parts[..|parts| - 2], sep) by {
      assert forall i :: 0 <= i < |shorter| ==> shorter[i] == parts[i];
      TrimLastOfJoin(shorter, sep);
      assert shorter[..|shorter| - 1] == parts[..|parts| - 2];
    }
  }

  /** `file[find_last(file, sep)+1:-4]`: the file name after the last
      separator, without its last four characters (the `.shp` extension). */
  function ParameterOf(file: string, sep: char): (r: string)
    ensures sep !in r
    ensures |r| > 0 ==> |r| + 4 <= |file| && file[|file| - 4 - |r|..|file| - 4] == r
    ensures |r| > 0 ==> |file| - 4 - |r| == 0 || file[|file| - 5 - |r|] == sep
    ensures |r| > 0 ==> sep !in file[|file| - 4 - |r|..]
    ensures |file| >= 5 && sep !in file[|file| - 5..] ==> |r| > 0
  {
    OccursAtChar(file, sep);
    var last := LastIndex(file, [sep]);
    var r := Slice(file, last + 1, -4);
    assert forall k :: 0 <= k < |r| ==> r[k] != sep;
    assert |file| >= 5 && sep !in file[|file| - 5..] ==> last < |file| - 5 by {
      if |file| >= 5 && last >= |file| - 5 {
        assert file[|file| - 5..][last - (|file| - 5)] == sep;
      }
    }
    r
  }

  /** The parameter of `dir/name.ext`, for a four-character extension such
      as `.shp`, is `name`. */
  lemma ParameterOfFile(dir: string, name: string, ext: string, sep: char)
    requires |ext| == 4
    requires sep !in name && sep !in ext
    ensures ParameterOf(dir + [sep] + name + ext, sep) == name
  {
    var file := dir + [sep] + name + ext;
    OccursAtChar(file, sep);
    assert file[|dir|] == sep;
    forall j | |dir| < j < |file|
      ensures file[j] != sep
    {
      if j < |dir| + 1 + |name| {
        assert file[j] == name[j - |dir| - 1];
      } else {
        assert file[j] == ext[j - |dir| - 1 - |name|];
      }
    }
    assert LastIndex(file, [sep]) == |dir|;
    assert file[|dir| + 1..|file| - 4] == name;
  }

  /** `Parameter[:Parameter.find('-')]`: the aquifer name before the first
      dash. Without a dash `find` gives -1, and the slice drops one character. */
  function AquiferName(param: string): (r: string)
    ensures '-' in param ==>
              |r| < |param| && param[|r|] == '-' && r == param[..|r|] && '-' !in r
    ensures '-' !in param ==> r == param[..if |param| == 0 then 0 else |param| - 1]
  {
    OccursAtChar(param, '-');
    Slice(param, 0, Find(param, "-", 0))
  }

  /** `Parameter[Parameter.find('-')+2:]`: the code-table key, which starts two
      characters after the first dash (past "- "). Without a dash it starts at index 1. */
  function CodeKey(param: string): (r: string)
    ensures '-' in param ==>
              r == (var d := |AquiferName(param)|; if d + 2 <= |param| then param[d + 2..] else [])
    ensures '-' !in param ==> r == if |param| == 0 then [] else param[1..]
  {
    OccursAtChar(param, '-');
    Slice(param, Find(param, "-", 0) + 2, |param|)
  }

  /** A parameter written `<aquifer>-<any char><code>`, with no dash in the
      aquifer name, yields that aquifer name and that code key. */
  lemma ParameterParts(aquifer: string, gap: char, code: string)
    requires '-' !in aquifer
    ensures AquiferName(aquifer + ['-', gap] + code) == aquifer
    ensures CodeKey(aquifer + ['-', gap] + code) == code
  {
    var param := aquifer + ['-', gap] + code;
    assert param[|aquifer|] == '-';
    assert param[..|aquifer|] == aquifer;
    assert param[|aquifer| + 2..] == code;
  }
}
