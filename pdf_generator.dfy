/** `PDFGenerator`: validating the arguments, building the document one
    image page at a time, putting the contents pages in front, saving it,
    and removing the output file when anything fails. */
module PdfGenerator {
  import opened Wrappers
  import opened Strings
  import opened Paths
  import opened Metadata
  import opened PdfDocumentModel
  import opened TextWrap
  import opened Environment
  import opened PageComposer
  import opened TableOfContents
  import opened Sorting

  // ----- Document and page entries -----

  /** The information dictionary `SetDocumentMetadata` writes: the four
      standard entries and `/LicenseType`; the output file name and the
      archive code are not written. */
  function InfoOf(metadata: PdfMetadata): (info: DocumentInfo)
    ensures info.licenseType == metadata.licenseType && info.title == metadata.title
  {
    DocumentInfo(metadata.title, metadata.author, metadata.keywords, metadata.subject, metadata.licenseType)
  }

  method SetDocumentMetadata(doc: PdfDocument, metadata: PdfMetadata)
    requires doc.Valid()
    modifies doc
    ensures doc.Valid() && doc.pages == old(doc.pages) && doc.nextId == old(doc.nextId)
    ensures doc.info == InfoOf(metadata)
  {
    doc.SetInfo(DocumentInfo(metadata.title, metadata.author, metadata.keywords, metadata.subject, metadata.licenseType));
  }

  /** Writes `/Title` (and `/Description` when the image has metadata) on the
      page at `index`. */
  method SetPageMetadata(doc: PdfDocument, index: nat, imagePath: string, pageNumber: int, metadata: PdfMetadata, seps: Separators)
    requires doc.Valid() && index < |doc.pages|
    modifies doc
    ensures doc.Valid() && doc.info == old(doc.info) && doc.nextId == old(doc.nextId)
    ensures doc.pages == old(doc.pages)[index := WithPageMetadata(old(doc.pages[index]), imagePath, pageNumber, metadata, seps)]
  {
    var page := doc.pages[index];
    var fallback := "Page " + IntToString(pageNumber);
    var pageMetadata := GetImageMetadata(metadata, imagePath, seps);
    if pageMetadata.Some? {
      var title := if pageMetadata.value.title.Some? then pageMetadata.value.title.value else fallback;
      var description := if pageMetadata.value.description.Some? then pageMetadata.value.description.value else "";
      page := page.(title := Some(title), description := Some(description));
    } else {
      page := page.(title := Some(fallback));
    }
    doc.UpdatePage(index, page);
  }

  // ----- One image page -----

  /** The caption lines of `path`, as the generator wraps them. */
  method WrapCaption(path: string, image: LoadedImage, env: Env) returns (lines: seq<string>)
    ensures lines == CaptionLines(path, image, env)
  {
    var detailsText := DetailsText(path, image, env);
    lines := WrapTextToFitPage(detailsText, env.measureCaption, image.pointWidth - 20.0);
  }

  /** Draws the caption lines from `top` down, 16 points apart, after the
      drawings already in `content`. */
  method DrawCaption(content: seq<Drawing>, lines: seq<string>, top: real) returns (drawn: seq<Drawing>)
    ensures drawn == content + CaptionDrawings(lines, top)
  {
    drawn := content;
    var currentY := top;
    for i := 0 to |lines|
      invariant currentY == top + 16.0 * i as real
      invariant drawn == content + CaptionDrawings(lines[..i], top)
    {
      CaptionDrawingsSnoc(lines, i, top);
      drawn := drawn + [DrawText(lines[i], 10.0, currentY, true)];
      currentY := currentY + 16.0;
    }
    assert lines[..|lines|] == lines;
  }

  lemma CaptionDrawingsSnoc(lines: seq<string>, i: nat, top: real)
    requires i < |lines|
    ensures CaptionDrawings(lines[..i + 1], top)
         == CaptionDrawings(lines[..i], top) + [DrawText(lines[i], 10.0, top + 16.0 * i as real, true)]
  {
    var a := CaptionDrawings(lines[..i + 1], top);
    var b := CaptionDrawings(lines[..i], top) + [DrawText(lines[i], 10.0, top + 16.0 * i as real, true)];
    assert |a| == |b|;
    forall m | 0 <= m < |a| ensures a[m] == b[m] {
      assert lines[..i + 1][m] == lines[m];
    }
  }

  /** The page as drawn, before `SetPageMetadata`: sized to the picture and
      its caption block, untitled. */
  function DrawnPage(id: PageId, image: LoadedImage, lines: seq<string>, meta: Option<PageMetadata>): (page: Page)
    ensures page.id == id && page.title == None && page.description == None && page.annots == None
    ensures page.height == image.pointHeight + 16.0 * |lines| as real + 10.0
  {
    Page(id, image.pointWidth, image.pointHeight + 16.0 * |lines| as real + 10.0, None, None,
         ImageContent(image, lines, meta), None)
  }

  /** One pass of the image loop of `BuildPdfDocument`: a new page sized to
      the image and its caption, the picture, the grey caption block, the
      caption lines, the hidden overlay, then the page entries. */
  method ComposeImagePage(doc: PdfDocument, imagePath: string, pageNumber: int, image: LoadedImage,
                          metadata: PdfMetadata, env: Env)
    requires doc.Valid()
    modifies doc
    ensures doc.Valid() && doc.info == old(doc.info) && doc.nextId == old(doc.nextId) + 1
    ensures doc.pages == old(doc.pages) + [ImagePage(old(doc.nextId), imagePath, pageNumber, image, metadata, env)]
  {
    ghost var id := doc.nextId;
    var index := doc.AddPage();
    var wrappedText := WrapCaption(imagePath, image, env);
    var pageMetadata := GetImageMetadata(metadata, imagePath, env.seps);
    DrawImagePage(doc, index, image, wrappedText, pageMetadata);
    SetPageMetadata(doc, index, imagePath, pageNumber, metadata, env.seps);
    ComposedPage(id, imagePath, pageNumber, image, metadata, env, wrappedText, pageMetadata);
  }

  /** The drawing part of `ComposeImagePage`, on the blank page at `index`. */
  method DrawImagePage(doc: PdfDocument, index: nat, image: LoadedImage, wrappedText: seq<string>, pageMetadata: Option<PageMetadata>)
    requires doc.Valid() && index < |doc.pages| && doc.pages[index] == BlankPage(doc.pages[index].id)
    modifies doc
    ensures doc.Valid() && doc.info == old(doc.info) && doc.nextId == old(doc.nextId)
    ensures doc.pages == old(doc.pages)[index := DrawnPage(old(doc.pages[index].id), image, wrappedText, pageMetadata)]
  {
    var page := doc.pages[index];
    var textHeight := |wrappedText| as real * 16.0;
    page := page.(width := image.pointWidth, height := image.pointHeight + (textHeight + 10.0));
    var content := [DrawImage(Rect(0.0, 0.0, page.width, image.pointHeight)),
                    FillRect(Rect(0.0, image.pointHeight, image.pointWidth, textHeight + 10.0))];
    content := DrawCaption(content, wrappedText, image.pointHeight + 10.0);
    if pageMetadata.Some? && pageMetadata.value.hiddenTextOverlay.Some? && pageMetadata.value.hiddenTextOverlay.value != "" {
      content := content + [DrawText(pageMetadata.value.hiddenTextOverlay.value, 20.0, 20.0, false)];
    }
    assert content == ImageContent(image, wrappedText, pageMetadata);
    assert page.content + content == content;
    page := page.(content := page.content + content);
    doc.UpdatePage(index, page);
  }

  /** Drawing, then setting the entries, gives the page `ImagePage` describes. */
  lemma ComposedPage(id: PageId, path: string, pageNumber: int, image: LoadedImage,
                     metadata: PdfMetadata, env: Env, lines: seq<string>, meta: Option<PageMetadata>)
    requires lines == CaptionLines(path, image, env)
    requires meta == GetImageMetadata(metadata, path, env.seps)
    ensures WithPageMetadata(DrawnPage(id, image, lines, meta), path, pageNumber, metadata, env.seps)
         == ImagePage(id, path, pageNumber, image, metadata, env)
  {
  }

  // ----- The whole document -----

  /** Every file can be loaded. */
  predicate AllLoad(files: seq<string>, env: Env)
  {
    forall i :: 0 <= i < |files| ==> env.load(files[i]).Some?
  }

  /** The position of the first file that cannot be loaded. */
  function FirstUnloadable(files: seq<string>, env: Env): (i: nat)
    requires !AllLoad(files, env)
    ensures i < |files| && env.load(files[i]).None?
    ensures AllLoad(files[..i], env)
  {
    if env.load(files[0]).None? then 0
    else
      var rest := FirstUnloadable(files[1..], env);
      assert forall k :: 0 <= k < rest ==> files[..rest + 1][k + 1] == files[1..][..rest][k];
      1 + rest
  }

  /** The contents entries the image loop collects: file `i` is image page `i + 1`. */
  function TocEntriesOf(files: seq<string>): (entries: seq<TocEntry>)
    ensures |entries| == |files|
    ensures forall i :: 0 <= i < |files| ==> entries[i] == TocEntry(files[i], i + 1)
  {
    if files == [] then []
    else
      var init := files[..|files| - 1];
      var entries := TocEntriesOf(init);
      assert forall i :: 0 <= i < |init| ==> init[i] == files[i];
      entries + [TocEntry(files[|files| - 1], |files|)]
  }

  /** One page per file, `make(i, path)` for the file `path` at position `i`. */
  function PagesOf(files: seq<string>, make: (nat, string) --> Page): (pages: seq<Page>)
    requires forall i :: 0 <= i < |files| ==> make.requires(i, files[i])
    ensures |pages| == |files|
  {
    if files == [] then []
    else
      var n := |files| - 1;
      assert forall i :: 0 <= i < n ==> files[..n][i] == files[i];
      PagesOf(files[..n], make) + [make(n, files[n])]
  }

  lemma {:induction false} PagesOfAt(files: seq<string>, make: (nat, string) --> Page, i: nat)
    requires forall i :: 0 <= i < |files| ==> make.requires(i, files[i])
    requires i < |files|
    ensures PagesOf(files, make)[i] == make(i, files[i])
    decreases |files|
  {
    var n := |files| - 1;
    assert forall k :: 0 <= k < n ==> files[..n][k] == files[k];
    if i < n {
      PagesOfAt(files[..n], make, i);
    }
  }

  /** The page of the `i`-th file, numbered `i + 1`; in a new document its
      page object is the `i`-th one created. */
  function ImagePageOf(metadata: PdfMetadata, env: Env): (nat, string) --> Page
  {
    (i: nat, path: string) requires env.load(path).Some? =>
      ImagePage(i, path, i + 1, env.load(path).value, metadata, env)
  }

  /** The image pages, one per file in order. */
  function ImagePages(files: seq<string>, metadata: PdfMetadata, env: Env): (pages: seq<Page>)
    requires AllLoad(files, env)
    ensures |pages| == |files|
  {
    PagesOf(files, ImagePageOf(metadata, env))
  }

  lemma ImagePagesAt(files: seq<string>, metadata: PdfMetadata, env: Env, i: nat)
    requires AllLoad(files, env) && i < |files|
    ensures ImagePages(files, metadata, env)[i]
         == ImagePage(i, files[i], i + 1, env.load(files[i]).value, metadata, env)
  {
    PagesOfAt(files, ImagePageOf(metadata, env), i);
    ImagePageOfApply(metadata, env, i, files[i]);
  }

  lemma ImagePageOfApply(metadata: PdfMetadata, env: Env, i: nat, path: string)
    requires env.load(path).Some?
    ensures ImagePageOf(metadata, env)(i, path) == ImagePage(i, path, i + 1, env.load(path).value, metadata, env)
  {
  }

  /** The pages `BuildPdfDocument` leaves in a new document, or the
      exception that stops it: the first file that does not load, else a
      contents line without room for its dots. */
  function Generate(files: seq<string>, metadata: PdfMetadata, env: Env): Result<seq<Page>, Error>
    requires env.Valid()
  {
    if !AllLoad(files, env) then Failure(CodecError(files[FirstUnloadable(files, env)]))
    else
      var images := ImagePages(files, metadata, env);
      var entries := TocEntriesOf(files);
      if !DotsFit(entries, metadata, env) then Failure(DotLeaderOutOfRange)
      else
        TocEntriesInRange(files);
        Success(TocPages(entries, images, |files|, metadata, env) + images)
  }

  lemma TocEntriesInRange(files: seq<string>)
    ensures EntriesInRange(TocEntriesOf(files), |files|)
  {
  }

  /** `BuildPdfDocument` on a new document. */
  method BuildPdfDocument(doc: PdfDocument, metadata: PdfMetadata, files: seq<string>, env: Env)
    returns (r: Outcome<Error>)
    requires doc.Valid() && env.Valid() && doc.pages == [] && doc.nextId == 0
    modifies doc
    ensures doc.Valid() && doc.info == InfoOf(metadata)
    ensures r.Pass? <==> Generate(files, metadata, env).Success?
    ensures r.Fail? ==> r.error == Generate(files, metadata, env).error
    ensures r.Pass? ==> doc.pages == Generate(files, metadata, env).value
  {
    SetDocumentMetadata(doc, metadata);
    var tocEntries: seq<TocEntry> := [];
    var pageNumber := 1;
    for i := 0 to |files|
      invariant doc.Valid() && doc.info == InfoOf(metadata)
      invariant pageNumber == i + 1 && doc.nextId == i
      invariant AllLoad(files[..i], env)
      invariant tocEntries == TocEntriesOf(files[..i])
      invariant doc.pages == ImagePages(files[..i], metadata, env)
    {
      var imagePath := files[i];
      var image := env.load(imagePath);
      if image.None? {
        FirstUnloadableAt(files, env, i);
        return Fail(CodecError(imagePath));
      }
      tocEntries := tocEntries + [TocEntry(imagePath, pageNumber)];
      ComposeImagePage(doc, imagePath, pageNumber, image.value, metadata, env);
      ImagePagesSnoc(files, metadata, env, i);
      pageNumber := pageNumber + 1;
    }
    assert files[..|files|] == files;
    TocEntriesInRange(files);
    if |tocEntries| > 0 {
      r := AddTableOfContents(doc, tocEntries, metadata, env);
    } else {
      TocPageCount(tocEntries, doc.pages, doc.nextId, metadata, env);
      r := Pass;
    }
  }

  lemma FirstUnloadableAt(files: seq<string>, env: Env, i: nat)
    requires i < |files| && AllLoad(files[..i], env) && env.load(files[i]).None?
    ensures !AllLoad(files, env) && FirstUnloadable(files, env) == i
  {
    var j := FirstUnloadable(files, env);
  }

  lemma ImagePagesSnoc(files: seq<string>, metadata: PdfMetadata, env: Env, i: nat)
    requires i < |files| && AllLoad(files[..i], env) && env.load(files[i]).Some?
    ensures AllLoad(files[..i + 1], env)
    ensures TocEntriesOf(files[..i + 1]) == TocEntriesOf(files[..i]) + [TocEntry(files[i], i + 1)]
    ensures ImagePages(files[..i + 1], metadata, env)
         == ImagePages(files[..i], metadata, env) + [ImagePage(i, files[i], i + 1, env.load(files[i]).value, metadata, env)]
  {
    assert files[..i + 1][..i] == files[..i];
  }

  /** A generated document has one contents page per 50 files, rounded up,
      followed by one image page per file, in the order of the files. */
  lemma GeneratedPages(files: seq<string>, metadata: PdfMetadata, env: Env)
    requires env.Valid() && Generate(files, metadata, env).Success?
    ensures AllLoad(files, env)
    ensures var pages := Generate(files, metadata, env).value;
      var t := (|files| + 49) / 50;
      && |pages| == t + |files|
      && pages[t..] == ImagePages(files, metadata, env)
  {
    var entries := TocEntriesOf(files);
    var images := ImagePages(files, metadata, env);
    TocEntriesInRange(files);
    var toc := TocPages(entries, images, |files|, metadata, env);
    TocPageCount(entries, images, |files|, metadata, env);
    assert (toc + images)[|toc|..] == images;
  }

  /** Line `j` of contents page `c + 1` names file `50 c + j`, with page
      number `50 c + j + 1`. */
  lemma ContentsLineNames(files: seq<string>, c: nat, j: nat)
    requires c < |TocChunks(TocEntriesOf(files))| && j < |TocChunks(TocEntriesOf(files))[c]|
    ensures 50 * c + j < |files|
    ensures TocChunks(TocEntriesOf(files))[c][j] == TocEntry(files[50 * c + j], 50 * c + j + 1)
  {
    EntriesOrdered(files);
    TocEntryOrder(TocEntriesOf(files), c, j);
  }

  /** The link of line `j` on contents page `c + 1` points at the image page
      its entry numbers: with page number p, the page at index T + p - 1,
      where T is the number of contents pages (by `ContentsLineNames`,
      p - 1 = 50 c + j, the image page of file 50 c + j). */
  lemma GeneratedLinks(files: seq<string>, metadata: PdfMetadata, env: Env, c: nat, j: nat)
    requires env.Valid() && Generate(files, metadata, env).Success?
    requires c < |TocChunks(TocEntriesOf(files))| && j < |TocChunks(TocEntriesOf(files))[c]|
    ensures var pages := Generate(files, metadata, env).value;
      var t := (|files| + 49) / 50;
      var p := TocChunks(TocEntriesOf(files))[c][j].pageNumber;
      && t <= t + p - 1 < |pages|
      && pages[c].annots.Some? && j < |pages[c].annots.value|
      && pages[c].annots.value[j].target == pages[t + p - 1].id
  {
    var entries := TocEntriesOf(files);
    var images := ImagePages(files, metadata, env);
    TocEntriesInRange(files);
    var toc := TocPages(entries, images, |files|, metadata, env);
    TocPageCount(entries, images, |files|, metadata, env);
    TocLinkResolves(entries, images, |files|, metadata, env, c, j);
    var pages := Generate(files, metadata, env).value;
    assert pages == toc + images;
    var final := toc + images;
    var k := |toc| + TocChunks(entries)[c][j].pageNumber - 1;
    assert pages[c] == toc[c];
    assert pages[k] == final[k];
  }

  /** The entries are collected in page-number order, so ordering them by
      page number leaves them as they are. */
  lemma EntriesOrdered(files: seq<string>)
    ensures OrderedEntries(TocEntriesOf(files)) == TocEntriesOf(files)
  {
    var entries := TocEntriesOf(files);
    assert SortedBy(entries, PageNumberOf, IntLeq);
    SortBySortedIsIdentity(entries, PageNumberOf, IntLeq);
  }

  /** A document is generated exactly when every file loads and every
      contents line leaves room for its dots; otherwise the error names the
      first file that does not load, if any. */
  lemma GenerateOutcome(files: seq<string>, metadata: PdfMetadata, env: Env)
    requires env.Valid()
    ensures Generate(files, metadata, env).Success?
        <==> AllLoad(files, env) && DotsFit(TocEntriesOf(files), metadata, env)
    ensures !AllLoad(files, env) ==>
      exists i :: 0 <= i < |files| && env.load(files[i]).None? && AllLoad(files[..i], env)
              && Generate(files, metadata, env) == Failure(CodecError(files[i]))
  {
    if !AllLoad(files, env) {
      var i := FirstUnloadable(files, env);
      assert env.load(files[i]).None? && AllLoad(files[..i], env);
    }
  }

  // ----- The file system and the entry point -----

  /** What a saved file holds: the document, or whatever a failed save left. */
  datatype FileContent = PdfFile(info: DocumentInfo, pages: seq<Page>) | Partial

  /** The directories and files the generator reads and writes. */
  class FileSystem {
    /** The paths `Directory.GetFiles` lists for each existing directory, in
        enumeration order, as taken before the run: a run lists a directory
        only once, so a file it saves is not added to these listings. */
    var directories: map<string, seq<string>>
    var files: map<string, FileContent>

    constructor (directories: map<string, seq<string>>, files: map<string, FileContent>)
      ensures this.directories == directories && this.files == files
    {
      this.directories := directories;
      this.files := files;
    }

    predicate DirectoryExists(path: string)
      reads this
    {
      path in directories
    }

    predicate FileExists(path: string)
      reads this
    {
      path in files
    }

    /** `PdfDocument.Save(path)`; a save that fails part way leaves an
        incomplete file behind. */
    method Save(path: string, content: FileContent, fails: bool) returns (r: Outcome<Error>)
      modifies this
      ensures directories == old(directories)
      ensures fails ==> r == Fail(SaveError) && files == old(files)[path := Partial]
      ensures !fails ==> r == Pass && files == old(files)[path := content]
    {
      if fails {
        files := files[path := Partial];
        r := Fail(SaveError);
      } else {
        files := files[path := content];
        r := Pass;
      }
    }

    /** `File.Delete(path)`. */
    method Delete(path: string)
      modifies this
      ensures directories == old(directories) && files == old(files) - {path}
    {
      files := files - {path};
    }
  }

  /** The checks `CreatePdfFromImages` makes before building, in order, and
      the image files it selects when they all pass. */
  function Validate(imageDirectory: string, outputDirectory: string, metadata: Option<PdfMetadata>,
                    directories: map<string, seq<string>>, env: Env): (r: Result<seq<string>, Error>)
    ensures r.Success? ==> imageDirectory in directories && r.value == SelectImageFiles(directories[imageDirectory], env) && r.value != []
  {
    if imageDirectory == "" then Failure(ArgumentError("imageDirectory"))
    else if outputDirectory == "" then Failure(ArgumentError("outputDirectory"))
    else if metadata.None? then Failure(ArgumentNullError("metadata"))
    else if outputDirectory !in directories then Failure(DirectoryNotFound(outputDirectory))
    else if imageDirectory !in directories then Failure(DirectoryNotFound(imageDirectory))
    else
      var imageFiles := SelectImageFiles(directories[imageDirectory], env);
      if imageFiles == [] then Failure(NoImageFiles) else Success(imageFiles)
  }

  /** The arguments are accepted exactly when both directory names are given
      and exist, the metadata is present and the image directory lists at
      least one file with a supported extension. */
  lemma ValidateAccepts(imageDirectory: string, outputDirectory: string, metadata: Option<PdfMetadata>,
                        directories: map<string, seq<string>>, env: Env)
    ensures Validate(imageDirectory, outputDirectory, metadata, directories, env).Success?
        <==> && imageDirectory != "" && outputDirectory != "" && metadata.Some?
             && outputDirectory in directories && imageDirectory in directories
             && exists f :: f in directories[imageDirectory] && IsImageFile(f, env.seps)
  {
    if imageDirectory in directories {
      var listing := directories[imageDirectory];
      FilteredNonEmpty(listing, env.seps);
      assert |SelectImageFiles(listing, env)| == |FilterImageFiles(listing, env.seps)|;
    }
  }

  /** Some file passes the extension filter exactly when some listed file is an image file. */
  lemma FilteredNonEmpty(listing: seq<string>, seps: Separators)
    ensures FilterImageFiles(listing, seps) != [] <==> exists f :: f in listing && IsImageFile(f, seps)
  {
    var filtered := FilterImageFiles(listing, seps);
    if filtered != [] {
      assert filtered[0] in filtered;
    }
    if exists f :: f in listing && IsImageFile(f, seps) {
      var f :| f in listing && IsImageFile(f, seps);
      assert f in filtered;
    }
  }

  /** `CreatePdfFile`: builds a new document from `imageFiles` and saves it at `pdfPath`. */
  method CreatePdfFile(fs: FileSystem, metadata: PdfMetadata, pdfPath: string, imageFiles: seq<string>, env: Env, saveFails: bool)
    returns (r: Outcome<Error>)
    requires env.Valid()
    modifies fs
    ensures fs.directories == old(fs.directories)
    ensures var g := Generate(imageFiles, metadata, env);
      && (r.Pass? <==> g.Success? && !saveFails)
      && (g.Failure? ==> r == Fail(g.error) && fs.files == old(fs.files))
      && (g.Success? && saveFails ==> r == Fail(SaveError) && fs.files == old(fs.files)[pdfPath := Partial])
      && (r.Pass? ==> fs.files == old(fs.files)[pdfPath := PdfFile(InfoOf(metadata), g.value)])
  {
    var pdfDocument := new PdfDocument();
    r := BuildPdfDocument(pdfDocument, metadata, imageFiles, env);
    if r.Fail? {
      return;
    }
    r := fs.Save(pdfPath, PdfFile(pdfDocument.info, pdfDocument.pages), saveFails);
  }

  /** The checks at the start of `CreatePdfFromImages`, and the image files
      selected when they pass. */
  method CheckArguments(fs: FileSystem, imageDirectory: string, outputDirectory: string,
                        metadata: Option<PdfMetadata>, env: Env)
    returns (r: Result<seq<string>, Error>)
    ensures r == Validate(imageDirectory, outputDirectory, metadata, fs.directories, env)
  {
    if imageDirectory == "" {
      return Failure(ArgumentError("imageDirectory"));
    }
    if outputDirectory == "" {
      return Failure(ArgumentError("outputDirectory"));
    }
    if metadata.None? {
      return Failure(ArgumentNullError("metadata"));
    }
    if !fs.DirectoryExists(outputDirectory) {
      return Failure(DirectoryNotFound(outputDirectory));
    }
    if imageDirectory !in fs.directories {
      return Failure(DirectoryNotFound(imageDirectory));
    }
    var imageFiles := SelectImageFiles(fs.directories[imageDirectory], env);
    if |imageFiles| == 0 {
      return Failure(NoImageFiles);
    }
    return Success(imageFiles);
  }

  /** The `try`/`catch` around `CreatePdfFile`: on any failure the output
      file is deleted if it exists, whether this run or an earlier one
      wrote it. */
  method CreatePdfFileOrClean(fs: FileSystem, metadata: PdfMetadata, pdfPath: string, imageFiles: seq<string>,
                              env: Env, saveFails: bool)
    returns (r: Outcome<Error>)
    requires env.Valid()
    modifies fs
    ensures fs.directories == old(fs.directories)
    ensures var g := Generate(imageFiles, metadata, env);
      && (r.Pass? <==> g.Success? && !saveFails)
      && (r.Pass? ==> fs.files == old(fs.files)[pdfPath := PdfFile(InfoOf(metadata), g.value)])
      && (r.Fail? ==> fs.files == old(fs.files) - {pdfPath} && r.error == (if g.Failure? then g.error else SaveError))
  {
    r := CreatePdfFile(fs, metadata, pdfPath, imageFiles, env, saveFails);
    if r.Fail? {
      if fs.FileExists(pdfPath) {
        fs.Delete(pdfPath);
      }
    }
  }

  /** `CreatePdfFromImages`: validates the arguments, builds and saves the
      document at `outputDirectory`/`OutputFileName`, and deletes that file
      when building or saving fails. */
  method CreatePdfFromImages(fs: FileSystem, imageDirectory: string, outputDirectory: string,
                             metadata: Option<PdfMetadata>, env: Env, saveFails: bool)
    returns (r: Outcome<Error>)
    requires env.Valid()
    modifies fs
    ensures fs.directories == old(fs.directories)
    ensures var v := Validate(imageDirectory, outputDirectory, metadata, old(fs.directories), env);
      v.Failure? ==> r == Fail(v.error) && fs.files == old(fs.files)
    ensures var v := Validate(imageDirectory, outputDirectory, metadata, old(fs.directories), env);
      v.Success? ==>
        var pdfPath := Combine(outputDirectory, metadata.value.outputFileName, env.seps);
        var g := Generate(v.value, metadata.value, env);
        && (r.Pass? <==> g.Success? && !saveFails)
        && (r.Pass? ==> fs.files == old(fs.files)[pdfPath := PdfFile(InfoOf(metadata.value), g.value)])
        && (r.Fail? ==> fs.files == old(fs.files) - {pdfPath}
                        && r.error == (if g.Failure? then g.error else SaveError))
  {
    var v := CheckArguments(fs, imageDirectory, outputDirectory, metadata, env);
    if v.Failure? {
      return Fail(v.error);
    }
    var pdfPath := Combine(outputDirectory, metadata.value.outputFileName, env.seps);
    r := CreatePdfFileOrClean(fs, metadata.value, pdfPath, v.value, env, saveFails);
  }
}
