/** Choosing the image files and laying out one page per image: picture,
    wrapped caption, hidden overlay and the page's `/Title`/`/Description`. */
module PageComposer {
  import opened Wrappers
  import opened Strings
  import opened Paths
  import opened Sorting
  import opened HashHelper
  import opened TextFormatHelper
  import opened Metadata
  import opened PdfDocumentModel
  import opened TextWrap
  import opened Environment

  // ----- Selecting and ordering the input files -----

  const ImageExtensions: seq<string> := [".jpg", ".jpeg", ".png", ".tiff", ".tif"]

  predicate IsImageFile(path: string, seps: Separators)
  {
    ToLower(GetExtension(path, seps)) in ImageExtensions
  }

  /** The `Where` on lower-cased extensions. */
  function FilterImageFiles(files: seq<string>, seps: Separators): (r: seq<string>)
    ensures |r| <= |files|
    ensures forall f :: f in r <==> f in files && IsImageFile(f, seps)
  {
    if files == [] then []
    else (if IsImageFile(files[0], seps) then [files[0]] else []) + FilterImageFiles(files[1..], seps)
  }

  function Stem(seps: Separators): string -> string
  {
    path => GetFileNameWithoutExtension(path, seps)
  }

  /** The supported image files of a directory listing, ordered by stem. */
  function SelectImageFiles(listing: seq<string>, env: Env): seq<string>
  {
    SortBy(FilterImageFiles(listing, env.seps), Stem(env.seps), env.stemOrder)
  }

  /** Exactly the listed files with a supported extension are selected, each
      as often as listed; they are ordered by stem, and files with tied stems
      keep the order of the listing. */
  lemma SelectImageFilesSpec(listing: seq<string>, env: Env, stem: string)
    requires TotalPreorder(env.stemOrder)
    ensures var files := SelectImageFiles(listing, env);
      && (forall f :: f in files <==> f in listing && IsImageFile(f, env.seps))
      && multiset(files) == multiset(FilterImageFiles(listing, env.seps))
      && SortedBy(files, Stem(env.seps), env.stemOrder)
      && Tied(files, Stem(env.seps), env.stemOrder, stem)
         == Tied(FilterImageFiles(listing, env.seps), Stem(env.seps), env.stemOrder, stem)
  {
    var filtered := FilterImageFiles(listing, env.seps);
    var files := SelectImageFiles(listing, env);
    SortBySorted(filtered, Stem(env.seps), env.stemOrder);
    SortByStable(filtered, Stem(env.seps), env.stemOrder, stem);
    forall f ensures f in files <==> f in filtered {
      assert f in files <==> f in multiset(files);
      assert f in filtered <==> f in multiset(filtered);
    }
  }

  // ----- The caption -----

  /** The lower-case hexadecimal digest of `bytes` under `a`. */
  function HexDigest(bytes: seq<byte>, a: HashAlgorithm, env: Env): string
  {
    Hex(env.digest(a, bytes))
  }

  /** The caption's digests are what `HashHelper.ComputeHash` returns for
      the algorithm's name. */
  lemma HexDigestIsComputeHash(bytes: seq<byte>, a: HashAlgorithm, env: Env)
    ensures ComputeHash(bytes, AlgorithmName(a), env.digest) == Success(HexDigest(bytes, a, env))
  {
    NamedAlgorithmAccepted(a);
  }

  function DetailsText(path: string, image: LoadedImage, env: Env): string
  {
    "Original file name: " + GetFileName(path, env.seps)
    + " | Date Taken: " + env.dateTaken(path).GetOr("Unknown")
    + " | Size: " + FormatFileSize(env.fileSize(path), env.figure)
    + " | MD5: " + HexDigest(image.bytes, MD5, env)
    + " | SHA1: " + HexDigest(image.bytes, SHA1, env)
  }

  // ----- Page layout -----

  // Caption lines are 16 points apart (font size 12 plus 4); the caption
  // block starts 10 points below the picture and is 20 points narrower.

  /** The caption lines, one `DrawString` per line, 16 points apart. */
  function CaptionDrawings(lines: seq<string>, top: real): (d: seq<Drawing>)
    ensures |d| == |lines|
  {
    seq(|lines|, i requires 0 <= i < |lines| => DrawText(lines[i], 10.0, top + 16.0 * i as real, true))
  }

  predicate HasOverlay(meta: Option<PageMetadata>)
  {
    meta.Some? && meta.value.hiddenTextOverlay.Some? && meta.value.hiddenTextOverlay.value != ""
  }

  /** `WriteTextOverlay`: the overlay text with a fully transparent brush at (20, 20). */
  function OverlayDrawings(meta: Option<PageMetadata>): seq<Drawing>
  {
    if HasOverlay(meta) then [DrawText(meta.value.hiddenTextOverlay.value, 20.0, 20.0, false)] else []
  }

  /** The effect of `SetPageMetadata` on a page. */
  function WithPageMetadata(page: Page, path: string, pageNumber: int, metadata: PdfMetadata, seps: Separators): (r: Page)
    ensures r.(title := page.title, description := page.description) == page
  {
    var fallback := "Page " + IntToString(pageNumber);
    match GetImageMetadata(metadata, path, seps)
    case Some(pm) => page.(title := Some(pm.title.GetOr(fallback)), description := Some(pm.description.GetOr("")))
    case None => page.(title := Some(fallback))
  }

  /** The caption lines: the details wrapped to the image width less 20. */
  function CaptionLines(path: string, image: LoadedImage, env: Env): seq<string>
  {
    Wrap(DetailsText(path, image, env), env.measureCaption, image.pointWidth - 20.0)
  }

  /** What is drawn on an image page: the picture at full width from the
      top, the grey caption block below it, the caption lines, the overlay. */
  function ImageContent(image: LoadedImage, lines: seq<string>, meta: Option<PageMetadata>): seq<Drawing>
  {
    var w, h := image.pointWidth, image.pointHeight;
    [DrawImage(Rect(0.0, 0.0, w, h)), FillRect(Rect(0.0, h, w, 16.0 * |lines| as real + 10.0))]
    + CaptionDrawings(lines, h + 10.0)
    + OverlayDrawings(meta)
  }

  /** The page composed for the image at `path`, number `pageNumber`. */
  function ImagePage(id: PageId, path: string, pageNumber: int, image: LoadedImage, metadata: PdfMetadata, env: Env): Page
  {
    var lines := CaptionLines(path, image, env);
    var content := ImageContent(image, lines, GetImageMetadata(metadata, path, env.seps));
    var page := Page(id, image.pointWidth, image.pointHeight + 16.0 * |lines| as real + 10.0,
                     None, None, content, None);
    WithPageMetadata(page, path, pageNumber, metadata, env.seps)
  }

  lemma ImageContentLayout(image: LoadedImage, lines: seq<string>, meta: Option<PageMetadata>)
    ensures var content := ImageContent(image, lines, meta);
      && |content| == 2 + |lines| + |OverlayDrawings(meta)|
      && content[0] == DrawImage(Rect(0.0, 0.0, image.pointWidth, image.pointHeight))
      && (forall i :: 0 <= i < |lines| ==>
            content[2 + i] == DrawText(lines[i], 10.0, image.pointHeight + 10.0 + 16.0 * i as real, true))
      && (forall i :: 0 <= i < 2 + |lines| ==> !(content[i].DrawText? && !content[i].visible))
      && (HasOverlay(meta) ==> content[2 + |lines|] == DrawText(meta.value.hiddenTextOverlay.value, 20.0, 20.0, false))
  {
    CaptionPositions(image, lines, meta);
    NoHiddenTextBeforeOverlay(image, lines, meta);
  }

  lemma CaptionPositions(image: LoadedImage, lines: seq<string>, meta: Option<PageMetadata>)
    ensures var content := ImageContent(image, lines, meta);
      forall i :: 0 <= i < |lines| ==>
        content[2 + i] == DrawText(lines[i], 10.0, image.pointHeight + 10.0 + 16.0 * i as real, true)
  {
    var content := ImageContent(image, lines, meta);
    var w, h := image.pointWidth, image.pointHeight;
    var head := [DrawImage(Rect(0.0, 0.0, w, h)), FillRect(Rect(0.0, h, w, 16.0 * |lines| as real + 10.0))];
    var captions := CaptionDrawings(lines, h + 10.0);
    var overlay := OverlayDrawings(meta);
    assert content == head + captions + overlay;
    forall i | 0 <= i < |lines|
      ensures content[2 + i] == DrawText(lines[i], 10.0, h + 10.0 + 16.0 * i as real, true)
    {
      assert content[2 + i] == (head + captions)[2 + i] == captions[i];
      assert captions[i] == DrawText(lines[i], 10.0, h + 10.0 + 16.0 * i as real, true);
    }
  }

  lemma NoHiddenTextBeforeOverlay(image: LoadedImage, lines: seq<string>, meta: Option<PageMetadata>)
    ensures var content := ImageContent(image, lines, meta);
      forall i :: 0 <= i < 2 + |lines| ==> !(content[i].DrawText? && !content[i].visible)
  {
  }

  /** An image page is as wide as the image and as tall as the image plus 16
      points per caption line plus 10; caption line i is drawn at
      y = height + 10 + 16 i; the caption is wrapped to the image width less 20. */
  lemma ImagePageLayout(id: PageId, path: string, pageNumber: int, image: LoadedImage, metadata: PdfMetadata, env: Env)
    ensures var page := ImagePage(id, path, pageNumber, image, metadata, env);
      var lines := CaptionLines(path, image, env);
      && page.id == id
      && page.width == image.pointWidth
      && page.height == image.pointHeight + 16.0 * |lines| as real + 10.0
      && |page.content| >= 2 + |lines|
      && page.content[0] == DrawImage(Rect(0.0, 0.0, image.pointWidth, image.pointHeight))
      && (forall i :: 0 <= i < |lines| ==>
            page.content[2 + i] == DrawText(lines[i], 10.0, image.pointHeight + 10.0 + 16.0 * i as real, true))
      && page.annots == None
  {
    var lines := CaptionLines(path, image, env);
    ImagePageFields(id, path, pageNumber, image, metadata, env);
    ContentLayout(ImagePage(id, path, pageNumber, image, metadata, env).content, image, lines,
                  GetImageMetadata(metadata, path, env.seps));
  }

  lemma ContentLayout(content: seq<Drawing>, image: LoadedImage, lines: seq<string>, meta: Option<PageMetadata>)
    requires content == ImageContent(image, lines, meta)
    ensures |content| >= 2 + |lines|
    ensures content[0] == DrawImage(Rect(0.0, 0.0, image.pointWidth, image.pointHeight))
    ensures forall i :: 0 <= i < |lines| ==>
      content[2 + i] == DrawText(lines[i], 10.0, image.pointHeight + 10.0 + 16.0 * i as real, true)
  {
    ImageContentLayout(image, lines, meta);
  }

  lemma ImagePageFields(id: PageId, path: string, pageNumber: int, image: LoadedImage, metadata: PdfMetadata, env: Env)
    ensures var page := ImagePage(id, path, pageNumber, image, metadata, env);
      var lines := CaptionLines(path, image, env);
      && page.id == id && page.width == image.pointWidth && page.annots == None
      && page.height == image.pointHeight + 16.0 * |lines| as real + 10.0
      && page.content == ImageContent(image, lines, GetImageMetadata(metadata, path, env.seps))
  {
  }

  /** `/Title` is the metadata title when there is one, else "Page n";
      `/Description` is present exactly when the image has metadata, as its
      description or ""; the invisible overlay is drawn exactly when the
      image's metadata has a non-empty overlay text. */
  lemma ImagePageMetadata(id: PageId, path: string, pageNumber: int, image: LoadedImage, metadata: PdfMetadata, env: Env)
    ensures var page := ImagePage(id, path, pageNumber, image, metadata, env);
      var meta := GetImageMetadata(metadata, path, env.seps);
      && page.title == Some(if meta.Some? && meta.value.title.Some? then meta.value.title.value
                            else "Page " + IntToString(pageNumber))
      && (page.description.Some? <==> meta.Some?)
      && (meta.Some? ==> page.description == Some(meta.value.description.GetOr("")))
      && ((exists i :: 0 <= i < |page.content| && page.content[i].DrawText? && !page.content[i].visible)
          <==> HasOverlay(meta))
      && (HasOverlay(meta) ==> page.content[|page.content| - 1]
                               == DrawText(meta.value.hiddenTextOverlay.value, 20.0, 20.0, false))
  {
    var page := ImagePage(id, path, pageNumber, image, metadata, env);
    var meta := GetImageMetadata(metadata, path, env.seps);
    var lines := CaptionLines(path, image, env);
    ImageContentLayout(image, lines, meta);
    assert page.content == ImageContent(image, lines, meta);
    if HasOverlay(meta) {
      assert page.content[2 + |lines|].DrawText? && !page.content[2 + |lines|].visible;
    }
  }
}
