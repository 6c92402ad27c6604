/** `PdfMetadata` and `PdfPageMetadata`: the document-level fields and the
    per-image entries keyed by file name. */
module Metadata {
  import opened Wrappers
  import opened Strings
  import opened Paths

  datatype PageMetadata = PageMetadata(
    title: Option<string>,
    description: Option<string>,
    hiddenTextOverlay: Option<string>)

  /** `Pages` is `None` when the deserialiser set the dictionary to null. */
  datatype PdfMetadata = PdfMetadata(
    outputFileName: string,
    title: Option<string>,
    author: Option<string>,
    keywords: Option<string>,
    archiveCode: Option<string>,
    subject: Option<string>,
    licenseType: Option<string>,
    pages: Option<map<string, PageMetadata>>)

  /** A default-constructed `PdfMetadata`, at `unixSeconds` on the clock. */
  function DefaultMetadata(unixSeconds: int): (m: PdfMetadata)
    ensures m.pages == Some(map[])
  {
    PdfMetadata("output_" + IntToString(unixSeconds) + ".pdf",
                None, None, None, None, None, None, Some(map[]))
  }

  predicate ContainsChar(s: string, c: char)
  {
    LastIndexOf(s, {c}) >= 0
  }

  /** The dictionary key for an image: the file name when the argument holds
      the PATH-list separator, otherwise the argument itself. */
  function LookupKey(fileNameOrPath: string, seps: Separators): string
  {
    if ContainsChar(fileNameOrPath, seps.pathList) then GetFileName(fileNameOrPath, seps)
    else fileNameOrPath
  }

  /** The key is a suffix of the argument. When the argument holds the
      PATH-list separator it is the part after the last directory separator
      (free of separators, and preceded by one unless it is the whole
      argument); otherwise it is the whole argument. */
  lemma LookupKeySpec(fileNameOrPath: string, seps: Separators)
    ensures var key := LookupKey(fileNameOrPath, seps);
      && |key| <= |fileNameOrPath| && fileNameOrPath[|fileNameOrPath| - |key|..] == key
      && (ContainsChar(fileNameOrPath, seps.pathList) ==>
            && (forall i :: 0 <= i < |key| ==> !IsDirectorySeparator(seps, key[i]))
            && (|key| < |fileNameOrPath| ==>
                  IsDirectorySeparator(seps, fileNameOrPath[|fileNameOrPath| - |key| - 1])))
      && (!ContainsChar(fileNameOrPath, seps.pathList) ==> key == fileNameOrPath)
  {
    if ContainsChar(fileNameOrPath, seps.pathList) {
      FileNameSpec(fileNameOrPath, seps);
    }
  }

  function GetImageMetadata(m: PdfMetadata, fileNameOrPath: string, seps: Separators): Option<PageMetadata>
  {
    var key := LookupKey(fileNameOrPath, seps);
    if m.pages.Some? && key in m.pages.value then Some(m.pages.value[key]) else None
  }

  /** Splitting the argument after its last directory separator into
      `directory` and `name`: a lookup finds exactly the entry stored under
      `name` when the argument holds the PATH-list separator and under the
      whole argument otherwise (ordinal comparison), and nothing when that key
      is absent or `Pages` is null. */
  lemma GetImageMetadataSpec(m: PdfMetadata, directory: string, name: string, seps: Separators)
    requires directory == [] || IsDirectorySeparator(seps, directory[|directory| - 1])
    requires forall i :: 0 <= i < |name| ==> !IsDirectorySeparator(seps, name[i])
    ensures var arg := directory + name;
      var key := if ContainsChar(arg, seps.pathList) then name else arg;
      && (m.pages.Some? && key in m.pages.value ==> GetImageMetadata(m, arg, seps) == Some(m.pages.value[key]))
      && (m.pages.None? || key !in m.pages.value ==> GetImageMetadata(m, arg, seps) == None)
  {
    FileNameOf(directory, name, seps);
  }

  /** Every argument splits that way: after its last directory separator. */
  lemma SplitAtLastSeparator(fileNameOrPath: string, seps: Separators) returns (directory: string, name: string)
    ensures fileNameOrPath == directory + name
    ensures directory == [] || IsDirectorySeparator(seps, directory[|directory| - 1])
    ensures forall i :: 0 <= i < |name| ==> !IsDirectorySeparator(seps, name[i])
  {
    name := GetFileName(fileNameOrPath, seps);
    FileNameSpec(fileNameOrPath, seps);
    directory := fileNameOrPath[..|fileNameOrPath| - |name|];
    assert fileNameOrPath == directory + name;
  }

  /** A default-constructed object is named `output_<seconds>.pdf`, so
      objects created at different seconds name different files. */
  lemma DefaultOutputFileName(a: int, b: int)
    ensures var name := DefaultMetadata(a).outputFileName;
      && |name| > 11 && name[..7] == "output_" && name[|name| - 4..] == ".pdf"
    ensures a != b ==> DefaultMetadata(a).outputFileName != DefaultMetadata(b).outputFileName
  {
    var x := IntToString(a);
    var y := IntToString(b);
    ParseIntToString(a);
    var name := DefaultMetadata(a).outputFileName;
    assert name == "output_" + x + ".pdf";
    assert name[..7] == "output_";
    assert name[|name| - 4..] == ".pdf";
    if a != b && name == DefaultMetadata(b).outputFileName {
      assert name == "output_" + y + ".pdf";
      assert |x| == |y|;
      assert x == name[7..|name| - 4] == y;
      IntToStringInjective(a, b);
    }
  }

  /** A default-constructed metadata object has no page entries. */
  lemma DefaultLookupIsNone(unixSeconds: int, fileNameOrPath: string, seps: Separators)
    ensures GetImageMetadata(DefaultMetadata(unixSeconds), fileNameOrPath, seps) == None
  {
  }

  // ----- The lookup as evidently intended -----

  /** As written, a full Unix path holds no ':' and is used whole as the key,
      so the entry stored under its file name is not found. */
  lemma LookupByPathMisses(pm: PageMetadata)
    ensures var m := DefaultMetadata(0).(pages := Some(map["IMG_001.jpg" := pm]));
      && GetImageMetadata(m, "IMG_001.jpg", Unix) == Some(pm)
      && GetImageMetadata(m, "/a/b/IMG_001.jpg", Unix) == None
  {
    var path := "/a/b/IMG_001.jpg";
    assert !ContainsChar("IMG_001.jpg", ':');
    assert !ContainsChar(path, ':');
    assert path != "IMG_001.jpg" by { assert |path| != |"IMG_001.jpg"|; }
  }

  /** The lookup with the directory part stripped, as the metadata keys intend. */
  function GetImageMetadataByFileName(m: PdfMetadata, fileNameOrPath: string, seps: Separators): (r: Option<PageMetadata>)
    ensures r.Some? <==> m.pages.Some? && GetFileName(fileNameOrPath, seps) in m.pages.value
  {
    var key := GetFileName(fileNameOrPath, seps);
    if m.pages.Some? && key in m.pages.value then Some(m.pages.value[key]) else None
  }

  /** With the directory stripped, a full path and its bare file name find
      the same entry. */
  lemma ByFileNameIgnoresDirectory(m: PdfMetadata, directory: string, name: string, seps: Separators)
    requires name != []
    requires forall i :: 0 <= i < |name| ==> !IsDirectorySeparator(seps, name[i])
    ensures GetImageMetadataByFileName(m, Combine(directory, name, seps), seps)
         == GetImageMetadataByFileName(m, name, seps)
  {
    CombineFileName(directory, name, seps);
    assert GetFileName(name, seps) == name;
  }
}
