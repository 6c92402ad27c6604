# DocumentBuilder PDF generator, modelled in Dafny

This project models the part of DocumentBuilder that turns a directory of images into one PDF (the `DocumentBuilder.Pdf` library):

- **Argument checks and rollback.** `PDFGenerator.CreatePdfFromImages` validates its arguments and selects the image files, filtering them by extension and sorting them by file-name stem. It then builds and saves the document. If building or saving throws, it deletes whatever file exists at the output path and rethrows. That includes a complete PDF left by an earlier run under the same output file name.
- **Document building.** `BuildPdfDocument` copies the document metadata and adds one page per image, numbered 1..n in order. Each page carries the picture, a grey caption block and the caption lines: file name, date, size, MD5 and SHA1, greedily wrapped by `WrapTextToFitPage`. A hidden text overlay is drawn when the page metadata has one, and the page gets `/Title` and `/Description` entries.
- **Table of contents.** `AddTableOfContents` sorts the entries by page number and cuts them into chunks of 50. It inserts one contents page per chunk at the front. Each line gets a truncated title, a dot leader and a printed page number, and a `/Link` annotation to the image page.
- **Helpers.**
  - `PdfMetadata.GetImageMetadata` derives a dictionary key from an image path and looks it up.
  - `HashHelper.ComputeHash` dispatches on an algorithm name and renders the digest as lowercase hex.
  - `TextFormatHelper.FormatFileSize` picks the byte, KB, MB or GB tier for a size.

## Modules and how the source maps onto them

- **Environment (`Env`).** The things the generator gets from libraries are parameters of the model:
  - image decoding and re-encoding;
  - file lengths and the date a picture was taken;
  - digest bytes and the `0.##` number format;
  - text widths measured in a font;
  - the string comparer used by `OrderBy`;
  - the platform's path separators.
- **PdfDocumentModel.** The PDF document is a class, `PdfDocument`. Its `pages` field is a sequence of page records that `AddPage`, `InsertPage` and the drawing methods update in place. Every page record carries an identity (`PageId`), and a link annotation names its target by that identity. PdfSharp does the same: a `/Dest` holds a reference to a page object, not an index.
- **PdfGenerator.** The generator's loops are methods proved against specification functions:
  - `BuildPdfDocument` is specified by `Generate`;
  - `AddTableOfContents` is specified by `TocPages`;
  - `WrapTextToFitPage` is specified by `Wrap`.
- **FileSystem.** The output directory is a `FileSystem` object: a map of directory listings and a map of files. Its methods `Save` and `Delete` change that state.
- **Pure helpers.** `Metadata`, `HashHelper`, `TextFormatHelper`, `Strings`, `Paths` and `Sorting` model pure code as functions and lemmas.

The model follows the code as written in two places where it evidently misbehaves. In each case a corrected definition and its intended property stand beside it (see "## Findings"):

- the metadata lookup tests for the PATH-list separator;
- the contents pages print `p + k`.

## Model

| member | source | states |
|---|---|---|
| Strings.Split | DocumentBuilder.Pdf/PDFGenerator.cs:168 | `string.Split` on a non-empty delimiter always yields at least one part |
| Strings.SplitPartsAreFree | DocumentBuilder.Pdf/PDFGenerator.cs:168 | the text is cut at every occurrence of the delimiter: no part contains it |
| Strings.SplitFirstIsPrefix | DocumentBuilder.Pdf/PDFGenerator.cs:168 | the first part of a split is a prefix of the text |
| Strings.JoinSplit | DocumentBuilder.Pdf/PDFGenerator.cs:166-168 | joining the parts of a split with the same delimiter gives back the original text |
| Strings.ToLowerSpec | DocumentBuilder.Pdf/PDFGenerator.cs:33 | ASCII lower-casing leaves no upper-case letter, keeps every other character, is idempotent and erases the original case |
| Strings.ToUpperSpec | DocumentBuilder.Pdf/Utils/HashHelper.cs:7 | ASCII upper-casing leaves no lower-case letter, keeps every other character, is idempotent and erases the original case |
| Strings.Truncate | DocumentBuilder.Pdf/PDFGenerator.cs:330-331 | the result is no longer than the limit or the input (in Unicode scalars), and a short enough input is kept whole |
| Strings.TruncateIsPrefix | DocumentBuilder.Pdf/PDFGenerator.cs:330-331 | the cut keeps a prefix, exactly `n` Unicode scalars long when the input is longer |
| Strings.TruncateOnBmp | DocumentBuilder.Pdf/PDFGenerator.cs:330-331 | for text within the Basic Multilingual Plane the cut agrees with `Length`/`Substring` on UTF-16 code units: min(n, Length) units kept, the text changed exactly when `Length` > n |
| Strings.Utf16LengthOfBmp | DocumentBuilder.Pdf/PDFGenerator.cs:330 | within the Basic Multilingual Plane, `Length` in code units equals the number of scalars |
| Strings.TruncateCountsScalars | DocumentBuilder.Pdf/PDFGenerator.cs:330-331 | outside the plane the model cuts later than the source: sixty emoji have `Length` 120 but are kept whole |
| Strings.NatToString | DocumentBuilder.Pdf/Utils/TextFormatHelper.cs:15 | a rendered count is a non-empty string of decimal digits |
| Strings.ParseIntToString | DocumentBuilder.Pdf/Utils/TextFormatHelper.cs:15 | an integer rendered in decimal (with a leading '-' when negative) parses back to itself |
| Paths.FileNameSpec | DocumentBuilder.Pdf/PDFGenerator.cs:101 | `Path.GetFileName` is the suffix after the last directory separator and holds no separator |
| Paths.FileNameOf | DocumentBuilder.Pdf/Models/PdfMetadata.cs:15 | a path cut right after a directory separator (or not cut) has the separator-free part after the cut as its file name |
| Paths.GetExtension | DocumentBuilder.Pdf/PDFGenerator.cs:33 | an extension is empty or a dot followed by at least one character |
| Paths.StemIsPrefix | DocumentBuilder.Pdf/PDFGenerator.cs:34 | the name without extension is a prefix of the file name |
| Paths.CombineFileName | DocumentBuilder.Pdf/PDFGenerator.cs:25 | combining a directory with a plain file name gives a path whose file name is that name |
| Sorting.SortBy | DocumentBuilder.Pdf/PDFGenerator.cs:34 | `OrderBy` returns a permutation of its input |
| Sorting.SortBySorted | DocumentBuilder.Pdf/PDFGenerator.cs:34 | under a total preorder the result of `OrderBy` is sorted by the key |
| Sorting.SortByStable | DocumentBuilder.Pdf/PDFGenerator.cs:34 | `OrderBy` is stable: elements with equivalent keys keep their relative order |
| Sorting.SortBySortedIsIdentity | DocumentBuilder.Pdf/PDFGenerator.cs:314 | ordering a sequence already sorted by the key leaves it unchanged |
| Sorting.Chunk | DocumentBuilder.Pdf/PDFGenerator.cs:314 | `Chunk(50)` yields non-empty groups of at most 50, all but the last full, whose concatenation is the input, ceil(n/50) of them |
| Sorting.CeilDiv50 | DocumentBuilder.Pdf/PDFGenerator.cs:312-314 | the number of chunks of 50 is (n + 49) / 50 |
| Sorting.ChunkAt | DocumentBuilder.Pdf/PDFGenerator.cs:314 | element j of chunk c is element 50c + j of the input |
| TextFormatHelper.FitsUnique | DocumentBuilder.Pdf/Utils/TextFormatHelper.cs:9-14 | at most one of KB, MB, GB fits a count, and only counts of at least 1024 have one |
| TextFormatHelper.FormatFileSizeUnit | DocumentBuilder.Pdf/Utils/TextFormatHelper.cs:3-15 | below 1024 (negative counts included, with the invariant '-' sign) the text is "{bytes} Bytes"; from 1024 on it is scaled to the one unit that fits |
| TextFormatHelper.ByteCountOfScaled | DocumentBuilder.Pdf/Utils/TextFormatHelper.cs:10-14 | a KB/MB/GB text ends with " ({bytes} bytes)" from which the exact count reads back |
| TextFormatHelper.ByteCountOfUnscaled | DocumentBuilder.Pdf/Utils/TextFormatHelper.cs:15 | a "{bytes} Bytes" text reads back to the exact count |
| TextFormatHelper.ByteCountOfFormat | DocumentBuilder.Pdf/Utils/TextFormatHelper.cs:3-15 | every formatted size carries its exact input count, whatever the figure formatting does |
| HashHelper.ParseAlgorithm | DocumentBuilder.Pdf/Utils/HashHelper.cs:7-14 | an accepted name uppercases to the canonical name of the algorithm chosen |
| HashHelper.ParseAlgorithmIff | DocumentBuilder.Pdf/Utils/HashHelper.cs:7-14 | a name selects an algorithm exactly when its (ASCII) upper-case form is that algorithm's name |
| HashHelper.NamedAlgorithmAccepted | DocumentBuilder.Pdf/Utils/HashHelper.cs:9-13 | each of MD5, SHA1, SHA256, SHA384, SHA512 is accepted and selects itself |
| HashHelper.Hex | DocumentBuilder.Pdf/Utils/HashHelper.cs:17 | the hex rendering has two characters per byte |
| HashHelper.RenderedIsHex | DocumentBuilder.Pdf/Utils/HashHelper.cs:17 | `BitConverter.ToString`, dashes removed, lowercased, is plain lowercase hex of the bytes |
| HashHelper.UnhexHex | DocumentBuilder.Pdf/Utils/HashHelper.cs:17 | decoding the hex rendering gives back the digest bytes |
| HashHelper.HexAlphabet | DocumentBuilder.Pdf/Utils/HashHelper.cs:17 | the rendering holds only 0-9 and a-f, no separators |
| HashHelper.ComputeHash | DocumentBuilder.Pdf/Utils/HashHelper.cs:5-18 | the call fails (InvalidOperationException) exactly for unknown names, and otherwise returns the hex of the selected digest |
| HashHelper.ComputeHashShape | DocumentBuilder.Pdf/Utils/HashHelper.cs:7-17 | for a known algorithm with standard digest sizes the result has 32/40/64/96/128 characters and decodes to the digest |
| Metadata.DefaultOutputFileName | DocumentBuilder.Pdf/Models/PdfMetadata.cs:3 | the default output file name is `output_<seconds>.pdf`, and objects created at different seconds name different files |
| Metadata.LookupKeySpec | DocumentBuilder.Pdf/Models/PdfMetadata.cs:15 | the key is a suffix of the argument: when the argument holds the PATH-list separator it is the part after the last directory separator (separator-free, preceded by a separator unless whole), otherwise the whole argument |
| Metadata.GetImageMetadataSpec | DocumentBuilder.Pdf/Models/PdfMetadata.cs:13-23 | for an argument `directory + name` cut after its last directory separator, the lookup returns the entry under `name` when the argument holds the PATH-list separator and under the whole argument otherwise (ordinal match), and null when that key is absent or `Pages` is null |
| Metadata.SplitAtLastSeparator | DocumentBuilder.Pdf/Models/PdfMetadata.cs:15 | every argument can be cut that way, so the previous row covers every lookup |
| Metadata.DefaultLookupIsNone | DocumentBuilder.Pdf/Models/PdfMetadata.cs:11 | every lookup on a default-constructed object returns null |
| Metadata.LookupByPathMisses | DocumentBuilder.Pdf/Models/PdfMetadata.cs:15 | with Unix separators a bare file name finds its entry but the full path of the same file does not |
| Metadata.GetImageMetadataByFileName | DocumentBuilder.Pdf/Models/PdfMetadata.cs:15-22 | the corrected lookup finds an entry exactly when the file name of the argument is a key |
| Metadata.ByFileNameIgnoresDirectory | DocumentBuilder.Pdf/Models/PdfMetadata.cs:15 | with the corrected lookup a full path and its bare file name find the same entry |
| PdfDocumentModel.PdfDocument.constructor | DocumentBuilder.Pdf/PDFGenerator.cs:60 | a new document has no pages and empty info |
| PdfDocumentModel.PdfDocument.AddPage | DocumentBuilder.Pdf/PDFGenerator.cs:93 | appends one fresh blank page with a new identity and returns its index; nothing else changes |
| PdfDocumentModel.PdfDocument.InsertPage | DocumentBuilder.Pdf/PDFGenerator.cs:316 | inserts a fresh blank page at the index, shifting the later pages up by one |
| PdfDocumentModel.PdfDocument.UpdatePage | DocumentBuilder.Pdf/PDFGenerator.cs:122-147 | drawing on a page replaces that page only and keeps its identity |
| PdfDocumentModel.PdfDocument.SetInfo | DocumentBuilder.Pdf/PDFGenerator.cs:406-410 | setting the info dictionary leaves the pages alone |
| TextWrap.WrapTextToFitPage | DocumentBuilder.Pdf/PDFGenerator.cs:164-197 | the loop returns exactly the greedy wrapping `Wrap` of the text |
| TextWrap.WrapFromStep | DocumentBuilder.Pdf/PDFGenerator.cs:171-189 | one token either extends the current line when the test line fits, or closes a non-empty current line and starts a new one |
| TextWrap.WrapEmpty | DocumentBuilder.Pdf/PDFGenerator.cs:166-196 | an empty text gives no lines |
| TextWrap.WrapFromIsJoinedGroups | DocumentBuilder.Pdf/PDFGenerator.cs:170-196 | when no token is empty, each wrapped line is a group of consecutive tokens joined with " \| " |
| TextWrap.GroupsSpec | DocumentBuilder.Pdf/PDFGenerator.cs:171-189 | the groups partition the tokens in order; each fits or is a single token; a group plus the next group's first token does not fit |
| TextWrap.WrapSpec | DocumentBuilder.Pdf/PDFGenerator.cs:164-197 | with no empty tokens, joining the lines with " \| " gives the text back, no token is split, every line fits or is one token, and the packing is greedy |
| PageComposer.FilterImageFiles | DocumentBuilder.Pdf/PDFGenerator.cs:30-33 | a file is kept exactly when its lowercased extension is .jpg, .jpeg, .png, .tiff or .tif |
| PageComposer.SelectImageFilesSpec | DocumentBuilder.Pdf/PDFGenerator.cs:30-35 | the selected files are exactly the image files of the listing, as a permutation, sorted by stem, ties in listing order |
| PageComposer.HexDigestIsComputeHash | DocumentBuilder.Pdf/PDFGenerator.cs:104-105 | the MD5 and SHA1 fields of a caption are what `ComputeHash` returns for those names |
| PageComposer.WithPageMetadata | DocumentBuilder.Pdf/PDFGenerator.cs:413-436 | setting page metadata changes only `/Title` and `/Description` |
| PageComposer.ImageContentLayout | DocumentBuilder.Pdf/PDFGenerator.cs:125-147 | the picture is drawn first at full width, the caption line i at y = height + 10 + 16i, only the overlay is invisible text, and it is drawn last |
| PageComposer.CaptionPositions | DocumentBuilder.Pdf/PDFGenerator.cs:129-141 | caption line i is drawn at x = 10, y = image height + 10 + 16i |
| PageComposer.NoHiddenTextBeforeOverlay | DocumentBuilder.Pdf/PDFGenerator.cs:144-147 | nothing before the overlay is invisible text |
| PageComposer.ImagePageLayout | DocumentBuilder.Pdf/PDFGenerator.cs:113-141 | an image page is as wide as the image and image height + 16 x (line count) + 10 high, with the picture and caption lines in place and no annotations |
| PageComposer.ImagePageMetadata | DocumentBuilder.Pdf/PDFGenerator.cs:425-435 | `/Title` is the metadata title or "Page n"; `/Description` is set (possibly to "") exactly when page metadata exists; hidden text appears exactly when there is a non-empty overlay |
| PdfGenerator.SetDocumentMetadata | DocumentBuilder.Pdf/PDFGenerator.cs:404-411 | copies title, author, keywords, subject and license type into the info dictionary; the pages are unchanged |
| PdfGenerator.SetPageMetadata | DocumentBuilder.Pdf/PDFGenerator.cs:413-436 | only the page at the index changes, and only its metadata entries |
| PdfGenerator.WrapCaption | DocumentBuilder.Pdf/PDFGenerator.cs:108-119 | the caption is the details text wrapped to the image width minus 20 |
| PdfGenerator.DrawCaption | DocumentBuilder.Pdf/PDFGenerator.cs:129-141 | the loop appends the caption drawings, one line every 16 points |
| PdfGenerator.CaptionDrawingsSnoc | DocumentBuilder.Pdf/PDFGenerator.cs:136-141 | drawing one more caption line adds exactly one text at the next position |
| PdfGenerator.DrawImagePage | DocumentBuilder.Pdf/PDFGenerator.cs:110-148 | drawing replaces exactly the blank page at the index |
| PdfGenerator.ComposedPage | DocumentBuilder.Pdf/PDFGenerator.cs:144-151 | drawing then setting metadata yields the specified image page |
| PdfGenerator.ComposeImagePage | DocumentBuilder.Pdf/PDFGenerator.cs:93-151 | one loop iteration appends exactly the specified image page |
| PdfGenerator.FirstUnloadable | DocumentBuilder.Pdf/PDFGenerator.cs:82-84 | the first image that fails to load: every earlier one loads |
| PdfGenerator.FirstUnloadableAt | DocumentBuilder.Pdf/PDFGenerator.cs:82-84 | an image that fails after all earlier ones loaded is the first failure |
| PdfGenerator.TocEntriesOf | DocumentBuilder.Pdf/PDFGenerator.cs:79-90 | entry i is file i with page number i + 1 |
| PdfGenerator.PagesOfAt | DocumentBuilder.Pdf/PDFGenerator.cs:82-151 | page i of the loop's output is made from file i |
| PdfGenerator.ImagePagesAt | DocumentBuilder.Pdf/PDFGenerator.cs:82-151 | image page i is built from file i with page number i + 1 |
| PdfGenerator.ImagePagesSnoc | DocumentBuilder.Pdf/PDFGenerator.cs:82-156 | one more loaded file adds one contents entry and one image page at the end |
| PdfGenerator.TocEntriesInRange | DocumentBuilder.Pdf/PDFGenerator.cs:90 | every entry names one of the image pages |
| PdfGenerator.BuildPdfDocument | DocumentBuilder.Pdf/PDFGenerator.cs:67-162 | sets the info; succeeds exactly when `Generate` does, with its error otherwise, and then the pages are `Generate`'s |
| PdfGenerator.GeneratedPages | DocumentBuilder.Pdf/PDFGenerator.cs:158-161 | a built document has ceil(n/50) + n pages, ending with the n image pages in order |
| PdfGenerator.ContentsLineNames | DocumentBuilder.Pdf/PDFGenerator.cs:314 | line j of contents page c names file 50c + j with page number 50c + j + 1 |
| PdfGenerator.GeneratedLinks | DocumentBuilder.Pdf/PDFGenerator.cs:342 | in the finished document each contents link targets the page holding its image |
| PdfGenerator.EntriesOrdered | DocumentBuilder.Pdf/PDFGenerator.cs:314 | the entries are already in page order, so `OrderBy` leaves them as collected |
| PdfGenerator.GenerateOutcome | DocumentBuilder.Pdf/PDFGenerator.cs:67-162 | building succeeds exactly when every image loads and every dot leader fits; otherwise it fails on the first image that does not load |
| PdfGenerator.FileSystem.Save | DocumentBuilder.Pdf/PDFGenerator.cs:64 | saving writes the file, or leaves a partial file and fails |
| PdfGenerator.FileSystem.Delete | DocumentBuilder.Pdf/PDFGenerator.cs:50 | deleting removes that one file only |
| PdfGenerator.Validate | DocumentBuilder.Pdf/PDFGenerator.cs:10-38 | on success the result is the selected, non-empty image list of the image directory |
| PdfGenerator.ValidateAccepts | DocumentBuilder.Pdf/PDFGenerator.cs:10-38 | the checks pass exactly when both directories are non-empty, metadata is present, both directories exist and the listing holds an image file |
| PdfGenerator.FilteredNonEmpty | DocumentBuilder.Pdf/PDFGenerator.cs:37-38 | the filtered list is non-empty exactly when some listed file is an image |
| PdfGenerator.CheckArguments | DocumentBuilder.Pdf/PDFGenerator.cs:10-38 | the check sequence returns what `Validate` specifies |
| PdfGenerator.CreatePdfFile | DocumentBuilder.Pdf/PDFGenerator.cs:58-65 | nothing is written when building fails; a save failure leaves a partial file; success writes the built document |
| PdfGenerator.CreatePdfFileOrClean | DocumentBuilder.Pdf/PDFGenerator.cs:40-55 | on any failure the output file is gone and the same error is returned; on success the built document is written |
| PdfGenerator.CreatePdfFromImages | DocumentBuilder.Pdf/PDFGenerator.cs:8-56 | invalid arguments fail before any file changes; otherwise the result and files are those of building and saving, with rollback |
| TableOfContents.OrderedMember | DocumentBuilder.Pdf/PDFGenerator.cs:314 | every ordered entry comes from the input |
| TableOfContents.EntryOrdered | DocumentBuilder.Pdf/PDFGenerator.cs:314 | every input entry appears in the ordered list |
| TableOfContents.ChunkMember | DocumentBuilder.Pdf/PDFGenerator.cs:314 | every entry of a contents page is one of the collected entries |
| TableOfContents.EntryTitleSpec | DocumentBuilder.Pdf/PDFGenerator.cs:328-331 | the title is the metadata title, else the stem, cut to a prefix of at most 100 Unicode scalars |
| TableOfContents.Dots | DocumentBuilder.Pdf/PDFGenerator.cs:337 | the leader has the requested length, or is empty when the count is negative (the error case) |
| TableOfContents.DotsAreDots | DocumentBuilder.Pdf/PDFGenerator.cs:337 | the leader consists of dots only |
| TableOfContents.LinkRect | DocumentBuilder.Pdf/PDFGenerator.cs:342 | the link rectangle mirrors the line's y in PDF coordinates (842 - y - 20) and lies on the page for the 50 lines |
| TableOfContents.TocPagesOfAt | DocumentBuilder.Pdf/PDFGenerator.cs:314-345 | contents page c is built from chunk c with number c + 1 |
| TableOfContents.CreateManualLinkAnnotation | DocumentBuilder.Pdf/PDFGenerator.cs:349-375 | appends one link to the page's annotations, creating the array when absent, targeting the page currently at the index; no other page changes |
| TableOfContents.AddTableOfContents | DocumentBuilder.Pdf/PDFGenerator.cs:305-347 | succeeds exactly when every dot leader fits, and then prefixes the document with the specified contents pages |
| TableOfContents.AddTocPage | DocumentBuilder.Pdf/PDFGenerator.cs:316-345 | one chunk inserts one contents page at its index, holding the header, the chunk's lines and their links |
| TableOfContents.DrawTocLine | DocumentBuilder.Pdf/PDFGenerator.cs:339-342 | drawing a line adds its text and its link to the contents page only |
| TableOfContents.TocPageStep | DocumentBuilder.Pdf/PDFGenerator.cs:326-345 | adding line j and its link turns the page for the first j entries into the page for j + 1 |
| TableOfContents.LineStep | DocumentBuilder.Pdf/PDFGenerator.cs:326-345 | a loop step on the document keeps the partially drawn page in place and resolves the link to image page p |
| TableOfContents.TocStep | DocumentBuilder.Pdf/PDFGenerator.cs:314-346 | one chunk extends the inserted prefix by its contents page |
| TableOfContents.DotsFitSnoc | DocumentBuilder.Pdf/PDFGenerator.cs:333-337 | a line whose leader fits extends the fitting prefix |
| TableOfContents.DotsFitConcat | DocumentBuilder.Pdf/PDFGenerator.cs:333-337 | leaders fit for a concatenation exactly when they fit for both parts |
| TableOfContents.FailedChunkIsListed | DocumentBuilder.Pdf/PDFGenerator.cs:314-337 | a chunk whose leader fails means the whole entry list fails |
| TableOfContents.TocPageCount | DocumentBuilder.Pdf/PDFGenerator.cs:312-316 | there are ceil(n/50) contents pages, and none without entries |
| TableOfContents.TocEntryOrder | DocumentBuilder.Pdf/PDFGenerator.cs:314 | line j of contents page c is entry 50c + j of the ordered list |
| TableOfContents.TocEntryLine | DocumentBuilder.Pdf/PDFGenerator.cs:322-340 | contents page c has the header then one line per entry, line j at y = 60 + 15j |
| TableOfContents.TocPageLine | DocumentBuilder.Pdf/PDFGenerator.cs:322-344 | a contents page holds the header and line j at y = 60 + 15j |
| TableOfContents.TocEntryLink | DocumentBuilder.Pdf/PDFGenerator.cs:342 | link j of contents page c targets image page p of the entry |
| TableOfContents.EntryLinkAt | DocumentBuilder.Pdf/PDFGenerator.cs:342 | the link list of a chunk has one link per entry, targeting its image page |
| TableOfContents.LinkTargetAt | DocumentBuilder.Pdf/PDFGenerator.cs:342-358 | a link to image page p resolves to index T + p - 1 of the final document |
| TableOfContents.TocLinkResolves | DocumentBuilder.Pdf/PDFGenerator.cs:342-358 | in the final document each link targets the page at index T + p - 1, the image page p |
| TableOfContents.PrintedNumberLags | DocumentBuilder.Pdf/PDFGenerator.cs:339 | the printed number p + k is at most the real position T + p, and equals it only on the last contents page |
| TableOfContents.PrintedNumberExample | DocumentBuilder.Pdf/PDFGenerator.cs:339 | with 51 images the first line prints 2 while its image is the third page |
| TableOfContents.IntendedNumberIsLinkTarget | DocumentBuilder.Pdf/PDFGenerator.cs:339-342 | the number p + T names exactly the page the entry links to |

## Left out

- Image decoding, re-encoding and compression (`GetPageImage` and the Magick helpers) are `Env.load`. It returns the re-encoded bytes and the point size, or nothing when the codec throws.
- `GetImageDateTaken` (EXIF and file times) is `Env.dateTaken`, already rendered as text. `FileInfo.Length` is `Env.fileSize`. The digest bytes are `Env.digest`. A digest of standard size is an assumption of `HashHelper.ComputeHashShape`.
- `MeasureString` is `Env.measureCaption` (Arial 12) and `Env.measureEntry` (Arial 8). Nothing is assumed about them except that a dot has positive width.
- The `0.##` double formatting is `Env.figure`. The leading figure of a formatted size is therefore not constrained.
- Layout arithmetic uses exact reals; floating-point rounding is not modelled. `(int)` of the dot count truncates toward zero.
- `OrderBy`'s default string comparer is the parameter `Env.stemOrder`, assumed to be a total preorder.
- `Path.Combine`, `Path.GetFileName`, `Path.GetExtension` and `Path.GetFileNameWithoutExtension` are modelled without drive-letter or UNC roots. On Windows, .NET stops the file name at a root ("C:foo.jpg" gives "foo.jpg"); the model does not. The full paths `Directory.GetFiles` returns never have a file name that reaches the root.
- Strings.Truncate: lengths count Unicode scalars, not the UTF-16 code units of .NET's `Length` and `Substring` (PDFGenerator.cs:330-331). This also applies to TableOfContents.EntryTitleSpec. A title with characters outside the Basic Multilingual Plane is cut later than the source cuts it, and never inside a surrogate pair, and its dot leader is measured on that longer title. `Strings.TruncateOnBmp` shows the two agree within the plane.
- Strings.IntToString: a negative number is written with '-', the invariant negative sign. The source's `{bytes}` and `ToString()` use the current culture's `NegativeSign`.
- Null strings and a null metadata object are `Option` values. The metadata passed to building is the non-null one.
- The unused `tocPagesCount` at PDFGenerator.cs:312 is not modelled. The number of contents pages is the number of chunks.
- Console output, `async`/`await`, cancellation and `Interlocked.Increment` are not modelled. The pipeline is single-threaded.
- The PdfSharp document options (PDFGenerator.cs:69-73), fonts, brushes and colours are not modelled.
- Text drawings record only their string and position. Rectangles, alignment and the centred contents header (a drawing at y = 40) are not recorded.
- Serialization of the PDF is not modelled. A saved file is `PdfFile(info, pages)`. A save failure is a parameter and leaves a partial file.
- The `/Type`, `/Subtype` and `/Fit` entries of a link annotation are not modelled; a link is its rectangle and target page.
- `writeTrace` is a constant `true` in the source, so the caption branch is always taken; the false branch is not modelled.
- Exceptions from `Directory.GetFiles`, `FileInfo` or `File.Delete` themselves are not modelled.
- Strings.ToLower: lower-cases ASCII letters only, the same in every culture. The source's `ToLower()` at PDFGenerator.cs:33 follows the current culture, so on a Turkish host ".TIF" becomes ".tıf" and is not selected, and non-ASCII letters such as 'İ' fold to 'i'. The model's extension filter therefore agrees with the source only for ASCII extensions under a non-Turkish culture.
- Strings.ToUpper: upper-cases ASCII letters only. .NET's `ToUpperInvariant` also maps some non-ASCII letters to ASCII (for example 'ſ' to 'S'), so HashHelper.cs:7 accepts names such as "ſha1" that the model rejects. The generator itself passes only "MD5" and "SHA1".
- TableOfContents.AddTableOfContents: on failure the contract says nothing about the contents pages already inserted, because the caller discards the document.
- TableOfContents.AddTocPage: on failure the contract says nothing about the half-drawn page, because the caller discards the document.
- PdfGenerator.BuildPdfDocument: on failure the contract states only the info dictionary, because the document is never saved.

## Findings

| source | as written | input that shows it | evidently intended | confidence | as-written member | corrected member |
|---|---|---|---|---|---|---|
| DocumentBuilder.Pdf/Models/PdfMetadata.cs:15 | the key is stripped to the file name only when the argument holds `Path.PathSeparator`, the PATH-list separator (':' on Unix, ';' on Windows) | Unix, `Pages` = {"IMG_001.jpg" -> m}, argument "/a/b/IMG_001.jpg": the whole path is the key and the lookup returns null | strip the directory whenever the argument is a path, so a full path finds the entry keyed by its file name | not executed | Metadata.LookupByPathMisses | Metadata.ByFileNameIgnoresDirectory |
| DocumentBuilder.Pdf/PDFGenerator.cs:339 | contents page k prints `p + k`, counting only the contents pages inserted so far | 51 images: two contents pages; the first line of page 1 prints 2, but its image ends up as the 3rd page | print `p + T` with T the total number of contents pages, the position the link resolves to | not executed | TableOfContents.PrintedNumberExample | TableOfContents.IntendedNumberIsLinkTarget |
