/** The `System.IO.Path` operations the generator uses, parameterised by the
    host's separator characters. */
module Paths {
  import opened Strings

  /** `Path.DirectorySeparatorChar`, `Path.AltDirectorySeparatorChar` and
      `Path.PathSeparator` (the separator of PATH-like lists). */
  datatype Separators = Separators(directory: char, altDirectory: char, pathList: char)

  const Unix := Separators('/', '/', ':')
  const Windows := Separators('\\', '/', ';')

  function DirectorySeparators(seps: Separators): set<char>
  {
    {seps.directory, seps.altDirectory}
  }

  predicate IsDirectorySeparator(seps: Separators, c: char)
  {
    c in DirectorySeparators(seps)
  }

  /** `Path.GetFileName`: the part after the last directory separator. */
  function GetFileName(path: string, seps: Separators): (name: string)
    ensures |name| <= |path|
  {
    var i := LastIndexOf(path, DirectorySeparators(seps));
    path[i + 1..]
  }

  /** The file name is the suffix of the path that follows its last directory
      separator (the whole path when it has none), and holds no separator. */
  lemma FileNameSpec(path: string, seps: Separators)
    ensures var name := GetFileName(path, seps);
      && path[|path| - |name|..] == name
      && (|name| < |path| ==> IsDirectorySeparator(seps, path[|path| - |name| - 1]))
      && (forall i :: 0 <= i < |name| ==> !IsDirectorySeparator(seps, name[i]))
  {
    var name := GetFileName(path, seps);
    LastIndexOfIsLast(path, DirectorySeparators(seps));
    forall i | 0 <= i < |name| ensures !IsDirectorySeparator(seps, name[i]) {
      assert name[i] == path[|path| - |name| + i];
    }
  }

  /** A path cut after a directory separator (or not at all) has the part
      after the cut as its file name when that part holds no separator. */
  lemma FileNameOf(directory: string, name: string, seps: Separators)
    requires directory == [] || IsDirectorySeparator(seps, directory[|directory| - 1])
    requires forall i :: 0 <= i < |name| ==> !IsDirectorySeparator(seps, name[i])
    ensures GetFileName(directory + name, seps) == name
  {
    var path := directory + name;
    LastIndexOfIsLast(path, DirectorySeparators(seps));
    forall j | |directory| <= j < |path| ensures !IsDirectorySeparator(seps, path[j]) {
      assert path[j] == name[j - |directory|];
    }
    if directory != [] {
      assert path[|directory| - 1] == directory[|directory| - 1];
    }
    assert path[|directory|..] == name;
  }

  /** `Path.GetExtension`: from the last '.' of the file name, unless that
      '.' ends the name or there is none, in which case "". */
  function GetExtension(path: string, seps: Separators): (ext: string)
    ensures ext == [] || (ext[0] == '.' && |ext| >= 2)
  {
    var name := GetFileName(path, seps);
    var dot := LastIndexOf(name, {'.'});
    if dot < 0 || dot == |name| - 1 then "" else name[dot..]
  }

  /** `Path.GetFileNameWithoutExtension`: the file name up to its last '.'. */
  function GetFileNameWithoutExtension(path: string, seps: Separators): (stem: string)
    ensures |stem| <= |GetFileName(path, seps)|
  {
    var name := GetFileName(path, seps);
    var dot := LastIndexOf(name, {'.'});
    if dot < 0 then name else name[..dot]
  }

  /** The stem is a prefix of the file name. */
  lemma StemIsPrefix(path: string, seps: Separators)
    ensures var name := GetFileName(path, seps);
      var stem := GetFileNameWithoutExtension(path, seps);
      forall i :: 0 <= i < |stem| ==> stem[i] == name[i]
  {
  }

  /** `Path.IsPathRooted`, for roots that begin with a directory separator. */
  predicate IsPathRooted(path: string, seps: Separators)
  {
    path != [] && IsDirectorySeparator(seps, path[0])
  }

  /** `Path.Combine(path1, path2)`. */
  function Combine(path1: string, path2: string, seps: Separators): string
  {
    if path2 == [] then path1
    else if path1 == [] || IsPathRooted(path2, seps) then path2
    else if IsDirectorySeparator(seps, path1[|path1| - 1]) then path1 + path2
    else path1 + [seps.directory] + path2
  }

  /** The file that `Combine(directory, name)` designates is called `name`. */
  lemma CombineFileName(directory: string, name: string, seps: Separators)
    requires name != []
    requires forall i :: 0 <= i < |name| ==> !IsDirectorySeparator(seps, name[i])
    ensures GetFileName(Combine(directory, name, seps), seps) == name
  {
    var path := Combine(directory, name, seps);
    var i := LastIndexOf(path, DirectorySeparators(seps));
    LastIndexOfIsLast(path, DirectorySeparators(seps));
    var start := |path| - |name|;
    assert path[start..] == name;
    forall j | start <= j < |path| ensures !IsDirectorySeparator(seps, path[j]) {
      assert path[j] == name[j - start];
    }
    if directory == [] {
      assert i < 0;
    } else {
      assert IsDirectorySeparator(seps, path[start - 1]);
      assert i == start - 1;
    }
  }
}
