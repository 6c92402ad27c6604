/** `AddTableOfContents` and `CreateManualLinkAnnotation`: contents pages
    inserted at the front of the document, 50 entries each, every entry a
    line with dot leaders and a link to its page. */
module TableOfContents {
  import opened Wrappers
  import opened Strings
  import opened Paths
  import opened Sorting
  import opened Metadata
  import opened PdfDocumentModel
  import opened Environment

  const MaxEntriesPerPage: nat := 50
  const TocWidth: real := 595.0
  const TocHeight: real := 842.0
  const Header := "Table of content"

  /** An entry recorded while composing: the image path and its page number. */
  datatype TocEntry = TocEntry(path: string, pageNumber: int)

  function PageNumberOf(e: TocEntry): int { e.pageNumber }

  predicate IntLeq(a: int, b: int) { a <= b }

  /** `tocEntries.OrderBy(x => x.PageNumber)`. */
  function OrderedEntries(entries: seq<TocEntry>): seq<TocEntry>
  {
    SortBy(entries, PageNumberOf, IntLeq)
  }

  /** `....Chunk(50)`. */
  function TocChunks(entries: seq<TocEntry>): seq<seq<TocEntry>>
  {
    Chunk(OrderedEntries(entries), MaxEntriesPerPage)
  }

  /** Every ordered entry is one of the entries, and conversely. */
  lemma OrderedMember(entries: seq<TocEntry>, m: nat)
    requires m < |OrderedEntries(entries)|
    ensures exists i :: 0 <= i < |entries| && entries[i] == OrderedEntries(entries)[m]
  {
    var sorted := OrderedEntries(entries);
    assert sorted[m] in multiset(sorted);
    assert sorted[m] in entries;
  }

  lemma EntryOrdered(entries: seq<TocEntry>, i: nat)
    requires i < |entries|
    ensures exists m :: 0 <= m < |OrderedEntries(entries)| && OrderedEntries(entries)[m] == entries[i]
  {
    var sorted := OrderedEntries(entries);
    assert entries[i] in multiset(entries);
    assert entries[i] in sorted;
  }

  /** Every entry of a chunk is one of the entries. */
  lemma ChunkMember(entries: seq<TocEntry>, c: nat, j: nat)
    requires c < |TocChunks(entries)| && j < |TocChunks(entries)[c]|
    ensures exists i :: 0 <= i < |entries| && entries[i] == TocChunks(entries)[c][j]
  {
    var sorted := OrderedEntries(entries);
    ChunkAt(sorted, MaxEntriesPerPage, c, j);
    OrderedMember(entries, c * MaxEntriesPerPage + j);
  }

  /** `GetPageTitle`: the metadata title of the image, if it has metadata. */
  function GetPageTitle(metadata: PdfMetadata, imagePath: string, seps: Separators): Option<string>
  {
    match GetImageMetadata(metadata, imagePath, seps)
    case Some(pm) => pm.title
    case None => None
  }

  /** The title shown for an entry: the metadata title, else the file stem,
      cut to 100 characters. */
  function EntryTitle(e: TocEntry, metadata: PdfMetadata, seps: Separators): string
  {
    Truncate(GetPageTitle(metadata, e.path, seps).GetOr(GetFileNameWithoutExtension(e.path, seps)), 100)
  }

  lemma EntryTitleSpec(e: TocEntry, metadata: PdfMetadata, seps: Separators)
    ensures var full := GetPageTitle(metadata, e.path, seps).GetOr(GetFileNameWithoutExtension(e.path, seps));
      var t := EntryTitle(e, metadata, seps);
      && |t| <= 100
      && (forall i :: 0 <= i < |t| ==> t[i] == full[i])
      && (|full| <= 100 ==> t == full)
      && (|full| > 100 ==> |t| == 100)
  {
  }

  /** The `(int)` conversion of a double: truncation toward zero. */
  function TruncateToInt(q: real): int
  {
    if q >= 0.0 then q.Floor else -((-q).Floor)
  }

  /** How many dots fit between the title and the number: the free width
      (page width less 80 less the title and the ORIGINAL page number) over
      the width of one dot, truncated. */
  function DotCount(e: TocEntry, metadata: PdfMetadata, env: Env): int
    requires env.Valid()
  {
    var title := EntryTitle(e, metadata, env.seps);
    var free := TocWidth - 80.0 - env.measureEntry(title) - env.measureEntry(IntToString(e.pageNumber));
    TruncateToInt(free / env.measureEntry("."))
  }

  /** `new string('.', n)`, which throws for a negative `n`. */
  function Dots(n: int): (d: string)
    ensures n >= 0 ==> |d| == n
    ensures n < 0 ==> d == ""
  {
    if n <= 0 then "" else Dots(n - 1) + "."
  }

  lemma {:induction false} DotsAreDots(n: int)
    ensures forall i :: 0 <= i < |Dots(n)| ==> Dots(n)[i] == '.'
    decreases n
  {
    if n > 0 {
      DotsAreDots(n - 1);
      assert forall i :: 0 <= i < |Dots(n - 1)| ==> Dots(n)[i] == Dots(n - 1)[i];
    }
  }

  /** The dot count of `e` is not negative, so `new string('.', n)` accepts it. */
  predicate LeaderFits(e: TocEntry, metadata: PdfMetadata, env: Env)
    requires env.Valid()
  {
    DotCount(e, metadata, env) >= 0
  }

  /** Every entry leaves room for a non-negative number of dots. */
  predicate DotsFit(entries: seq<TocEntry>, metadata: PdfMetadata, env: Env)
    requires env.Valid()
  {
    forall i {:trigger LeaderFits(entries[i], metadata, env)} :: 0 <= i < |entries| ==> LeaderFits(entries[i], metadata, env)
  }

  /** The number printed after the dots on contents page `k` (1-based):
      the entry's page number plus the contents pages inserted so far. */
  function PrintedNumber(e: TocEntry, k: nat): int
  {
    e.pageNumber + k
  }

  function TocLine(e: TocEntry, k: nat, metadata: PdfMetadata, env: Env): string
    requires env.Valid()
  {
    EntryTitle(e, metadata, env.seps) + " " + Dots(DotCount(e, metadata, env)) + " " + IntToString(PrintedNumber(e, k))
  }

  /** The top of the `j`-th line of a contents page. */
  function EntryY(j: nat): real
  {
    60.0 + 15.0 * j as real
  }

  /** The clickable area of the `j`-th line, in PDF coordinates (origin at
      the bottom): it spans the line's 20 points below its top, and for the
      50 lines a page holds it stays on the page. */
  function LinkRect(j: nat): (r: Rect)
    ensures r.y + r.height == TocHeight - EntryY(j)
    ensures j < 50 ==> 0.0 <= r.y && r.x + r.width <= TocWidth
  {
    Rect(40.0, TocHeight - EntryY(j) - 20.0, TocWidth - 80.0, 20.0)
  }

  function HeaderDrawing(): Drawing
  {
    DrawText(Header, 0.0, 40.0, true)
  }

  predicate EntriesInRange(entries: seq<TocEntry>, n: nat)
  {
    forall i :: 0 <= i < |entries| ==> 1 <= entries[i].pageNumber <= n
  }

  /** The text of each line of contents page `k`, one per entry. */
  function TocLines(chunk: seq<TocEntry>, k: nat, metadata: PdfMetadata, env: Env): seq<string>
    requires env.Valid()
  {
    MapSeq(chunk, LineOf(k, metadata, env))
  }

  function LineOf(k: nat, metadata: PdfMetadata, env: Env): TocEntry --> string
  {
    e requires env.Valid() => TocLine(e, k, metadata, env)
  }

  /** `f` applied to each element of `s`, in order. */
  function MapSeq<A, B>(s: seq<A>, f: A --> B): seq<B>
    requires forall i :: 0 <= i < |s| ==> f.requires(s[i])
  {
    seq(|s|, j requires 0 <= j < |s| => f(s[j]))
  }

  lemma MapSeqAppend<A, B>(s: seq<A>, j: nat, f: A --> B)
    requires j < |s| && forall i :: 0 <= i < |s| ==> f.requires(s[i])
    ensures MapSeq(s[..j + 1], f) == MapSeq(s[..j], f) + [f(s[j])]
  {
    var longer := MapSeq(s[..j + 1], f);
    var shorter := MapSeq(s[..j], f);
    forall i | 0 <= i < j ensures longer[i] == shorter[i] {
      assert s[..j + 1][i] == s[..j][i];
    }
    assert s[..j + 1][j] == s[j];
  }

  /** The lines drawn below the header, 15 points apart. */
  function LineDrawings(lines: seq<string>): seq<Drawing>
  {
    seq(|lines|, j requires 0 <= j < |lines| => DrawText(lines[j], 40.0, EntryY(j), true))
  }

  /** The links of the lines: the entry with page number p points at the page
      object that was at index p + k - 1 when page k was inserted, which is
      image page p. */
  function EntryLinks(chunk: seq<TocEntry>, images: seq<Page>): seq<Link>
    requires EntriesInRange(chunk, |images|)
  {
    seq(|chunk|, j requires 0 <= j < |chunk| => Link(LinkRect(j), images[chunk[j].pageNumber - 1].id))
  }

  /** What contents page `k` draws: the header, then one line per entry. */
  function TocContent(k: nat, chunk: seq<TocEntry>, metadata: PdfMetadata, env: Env): seq<Drawing>
    requires env.Valid()
  {
    [HeaderDrawing()] + LineDrawings(TocLines(chunk, k, metadata, env))
  }

  /** The `/Annots` of a contents page: absent until the first link is added. */
  function TocAnnots(chunk: seq<TocEntry>, images: seq<Page>): Option<seq<Link>>
    requires EntriesInRange(chunk, |images|)
  {
    if chunk == [] then None else Some(EntryLinks(chunk, images))
  }

  /** Contents page `k` (1-based), holding `chunk`, in front of `images`. */
  function TocPage(id: PageId, k: nat, chunk: seq<TocEntry>, images: seq<Page>, metadata: PdfMetadata, env: Env): Page
    requires env.Valid()
    requires EntriesInRange(chunk, |images|)
  {
    Page(id, TocWidth, TocHeight, None, None, TocContent(k, chunk, metadata, env), TocAnnots(chunk, images))
  }

  lemma PrefixInRange(chunk: seq<TocEntry>, n: nat, j: nat)
    requires EntriesInRange(chunk, n) && j <= |chunk|
    ensures EntriesInRange(chunk[..j], n)
  {
    var prefix := chunk[..j];
    forall i | 0 <= i < |prefix| ensures 1 <= prefix[i].pageNumber <= n {
      assert prefix[i] == chunk[i];
    }
  }

  lemma ChunksInRange(entries: seq<TocEntry>, n: nat, c: nat)
    requires EntriesInRange(entries, n) && c < |TocChunks(entries)|
    ensures EntriesInRange(TocChunks(entries)[c], n)
  {
    var chunks: seq<seq<TocEntry>> := TocChunks(entries);
    forall j: int | 0 <= j < |chunks[c]| ensures 1 <= chunks[c][j].pageNumber <= n {
      ChunkMember(entries, c, j);
    }
  }

  predicate ChunksWithin(chunks: seq<seq<TocEntry>>, n: nat)
  {
    forall c :: 0 <= c < |chunks| ==> EntriesInRange(chunks[c], n)
  }

  lemma AllChunksInRange(entries: seq<TocEntry>, n: nat)
    requires EntriesInRange(entries, n)
    ensures ChunksWithin(TocChunks(entries), n)
  {
    forall c | 0 <= c < |TocChunks(entries)| ensures EntriesInRange(TocChunks(entries)[c], n) {
      ChunksInRange(entries, n, c);
    }
  }

  /** Contents pages 1 to |chunks|, one per chunk, with consecutive identities. */
  function TocPagesOf(chunks: seq<seq<TocEntry>>, images: seq<Page>, firstId: PageId, metadata: PdfMetadata, env: Env): (pages: seq<Page>)
    requires env.Valid() && ChunksWithin(chunks, |images|)
    ensures |pages| == |chunks|
    decreases |chunks|
  {
    if chunks == [] then []
    else
      var c := |chunks| - 1;
      TocPagesOf(chunks[..c], images, firstId, metadata, env) + [TocPage(firstId + c, c + 1, chunks[c], images, metadata, env)]
  }

  lemma {:induction false} TocPagesOfAt(chunks: seq<seq<TocEntry>>, images: seq<Page>, firstId: PageId, metadata: PdfMetadata, env: Env, c: nat)
    requires env.Valid() && ChunksWithin(chunks, |images|) && c < |chunks|
    ensures TocPagesOf(chunks, images, firstId, metadata, env)[c]
      == TocPage(firstId + c, c + 1, chunks[c], images, metadata, env)
    decreases |chunks|
  {
    if c < |chunks| - 1 {
      var init := chunks[..|chunks| - 1];
      TocPagesOfAt(init, images, firstId, metadata, env, c);
      assert init[c] == chunks[c];
    }
  }

  /** All contents pages, in document order, placed in front of `images`. */
  function TocPages(entries: seq<TocEntry>, images: seq<Page>, firstId: PageId, metadata: PdfMetadata, env: Env): (pages: seq<Page>)
    requires env.Valid() && EntriesInRange(entries, |images|)
    ensures |pages| == |TocChunks(entries)|
  {
    AllChunksInRange(entries, |images|);
    TocPagesOf(TocChunks(entries), images, firstId, metadata, env)
  }

  // ----- The operations -----

  /** Appends a link to the page at `pageIndex`, creating its `/Annots`
      array if the page has none; the target is the page object at
      `targetPageIndex` now. */
  method CreateManualLinkAnnotation(doc: PdfDocument, pageIndex: nat, bounds: Rect, targetPageIndex: int)
    requires doc.Valid() && pageIndex < |doc.pages| && 0 <= targetPageIndex < |doc.pages|
    modifies doc
    ensures doc.Valid() && doc.info == old(doc.info) && doc.nextId == old(doc.nextId)
    ensures |doc.pages| == |old(doc.pages)|
    ensures var page := old(doc.pages[pageIndex]);
      doc.pages[pageIndex] == page.(annots := Some(page.annots.GetOr([]) + [Link(bounds, old(doc.pages[targetPageIndex].id))]))
    ensures var page := old(doc.pages[pageIndex]);
      doc.pages == old(doc.pages)[pageIndex :=
        page.(annots := Some(page.annots.GetOr([]) + [Link(bounds, old(doc.pages[targetPageIndex].id))]))]
  {
    var page := doc.pages[pageIndex];
    var link := Link(bounds, doc.pages[targetPageIndex].id);
    var annots: seq<Link>;
    if page.annots.Some? {
      annots := page.annots.value;
    } else {
      annots := [];
    }
    doc.UpdatePage(pageIndex, page.(annots := Some(annots + [link])));
  }

  method AddTableOfContents(doc: PdfDocument, tocEntries: seq<TocEntry>, metadata: PdfMetadata, env: Env)
    returns (r: Outcome<Error>)
    requires doc.Valid() && env.Valid()
    requires EntriesInRange(tocEntries, |doc.pages|)
    modifies doc
    ensures doc.Valid() && doc.info == old(doc.info)
    ensures r.Pass? <==> DotsFit(tocEntries, metadata, env)
    ensures r.Fail? ==> r.error == DotLeaderOutOfRange
    ensures r.Pass? ==>
      doc.pages == TocPages(tocEntries, old(doc.pages), old(doc.nextId), metadata, env) + old(doc.pages)
  {
    var images := doc.pages;
    var firstId := doc.nextId;
    var chunks := TocChunks(tocEntries);
    ghost var done := TocPages(tocEntries, images, firstId, metadata, env);
    var pageIndex := 0;
    for c := 0 to |chunks|
      invariant doc.Valid() && doc.info == old(doc.info)
      invariant pageIndex == c && doc.nextId == firstId + c
      invariant |doc.pages| == c + |images| && doc.pages[c..] == images
      invariant doc.pages == done[..c] + images
      invariant DotsFit(Flatten(chunks[..c]), metadata, env)
    {
      ChunksInRange(tocEntries, |images|, c);
      ghost var prev := doc.pages;
      ghost var id := doc.nextId;
      r := AddTocPage(doc, pageIndex, chunks[c], images, metadata, env);
      if r.Fail? {
        FailedChunkIsListed(tocEntries, c, metadata, env);
        return;
      }
      TocStep(tocEntries, images, firstId, metadata, env, pageIndex, chunks[c], id, prev, doc.pages);
      pageIndex := pageIndex + 1;
    }
    TakeAll(chunks);
    TakeAll(done);
    AllChunksListed(tocEntries, metadata, env);
    r := Pass;
  }

  /** One pass of the outer loop of `AddTableOfContents`: inserts contents
      page `index + 1` at `index`, in front of `images`, draws the header
      and one line with its link per entry of `chunk`, and fails at the
      first entry whose dot count is negative. */
  method AddTocPage(doc: PdfDocument, index: nat, chunk: seq<TocEntry>, images: seq<Page>, metadata: PdfMetadata, env: Env)
    returns (r: Outcome<Error>)
    requires doc.Valid() && env.Valid()
    requires |doc.pages| == index + |images| && doc.pages[index..] == images
    requires EntriesInRange(chunk, |images|)
    modifies doc
    ensures doc.Valid() && doc.info == old(doc.info) && doc.nextId == old(doc.nextId) + 1
    ensures r.Pass? <==> DotsFit(chunk, metadata, env)
    ensures r.Fail? ==> r.error == DotLeaderOutOfRange
    ensures r.Pass? ==>
      doc.pages == old(doc.pages)[..index] + [TocPage(old(doc.nextId), index + 1, chunk, images, metadata, env)] + images
  {
    ghost var before := doc.pages[..index];
    SplitAt(doc.pages, index);
    var id := doc.nextId;
    doc.InsertPage(index);
    var pageIndex := index + 1;
    ghost var base := doc.pages;
    assert base == before + [BlankPage(id)] + images;
    UpdateMiddle(before, BlankPage(id), BlankPage(id), images);
    var tocPage := doc.pages[index];
    doc.UpdatePage(index, tocPage.(width := TocWidth, height := TocHeight));
    tocPage := doc.pages[index];
    doc.UpdatePage(index, tocPage.(content := tocPage.content + [HeaderDrawing()]));
    UpdateTwice(base, index, tocPage, doc.pages[index]);
    TocPageEmpty(id, pageIndex, chunk, images, metadata, env);
    assert doc.pages[index] == TocPage(id, pageIndex, chunk[..0], images, metadata, env);
    var yPosition := 60.0;
    for j := 0 to |chunk|
      invariant doc.Valid() && doc.info == old(doc.info) && doc.nextId == id + 1
      invariant yPosition == EntryY(j)
      invariant doc.pages == base[index := TocPage(id, pageIndex, chunk[..j], images, metadata, env)]
      invariant DotsFit(chunk[..j], metadata, env)
    {
      var entry := chunk[j];
      if DotCount(entry, metadata, env) < 0 {
        assert !LeaderFits(chunk[j], metadata, env);
        return Fail(DotLeaderOutOfRange);
      }
      var targetIndex := entry.pageNumber + pageIndex - 1;
      var tocLine := TocLine(entry, pageIndex, metadata, env);
      ghost var prev := doc.pages;
      DrawTocLine(doc, index, tocLine, j, yPosition, targetIndex);
      LineStep(before, id, pageIndex, chunk, j, images, metadata, env, targetIndex, prev, doc.pages);
      DotsFitSnoc(chunk, j, metadata, env);
      yPosition := yPosition + 15.0;
    }
    TakeAll(chunk);
    UpdateMiddle(before, BlankPage(id), TocPage(id, pageIndex, chunk, images, metadata, env), images);
    r := Pass;
  }

  /** The body of the inner loop for one line: draws `text` at `yPosition`
      on the page at `index`, then links the line to the page object at
      `targetIndex`. */
  method DrawTocLine(doc: PdfDocument, index: nat, text: string, j: nat, yPosition: real, targetIndex: nat)
    requires doc.Valid() && index < |doc.pages| && targetIndex < |doc.pages|
    requires yPosition == EntryY(j)
    modifies doc
    ensures doc.Valid() && doc.info == old(doc.info) && doc.nextId == old(doc.nextId)
    ensures doc.pages == old(doc.pages)[index := WithLine(old(doc.pages[index]), text, j, old(doc.pages[targetIndex].id))]
  {
    var tocPage := doc.pages[index];
    ghost var target := doc.pages[targetIndex].id;
    var drawn := tocPage.(content := tocPage.content + [DrawText(text, 40.0, yPosition, true)]);
    doc.UpdatePage(index, drawn);
    assert doc.pages[targetIndex].id == target;
    var bounds := Rect(40.0, TocHeight - yPosition - 20.0, TocWidth - 80.0, 20.0);
    assert bounds == LinkRect(j);
    CreateManualLinkAnnotation(doc, index, bounds, targetIndex);
    UpdateTwice(old(doc.pages), index, drawn, doc.pages[index]);
  }

  /** One pass of the inner loop of `AddTableOfContents` in terms of the
      result: drawing line `j` on the contents page at `|before|` and linking
      it to the page object at `targetIndex` turns the page holding
      `chunk[..j]` into the page holding `chunk[..j + 1]`. */
  lemma LineStep(before: seq<Page>, id: PageId, k: nat, chunk: seq<TocEntry>, j: nat, images: seq<Page>,
                 metadata: PdfMetadata, env: Env, targetIndex: nat, prev: seq<Page>, next: seq<Page>)
    requires env.Valid() && EntriesInRange(chunk, |images|) && j < |chunk|
    requires k == |before| + 1 && targetIndex == chunk[j].pageNumber + k - 1
    requires prev == (before + [BlankPage(id)] + images)[|before| := TocPage(id, k, chunk[..j], images, metadata, env)]
    requires next == prev[|before| := WithLine(prev[|before|], TocLine(chunk[j], k, metadata, env), j, prev[targetIndex].id)]
    ensures next == (before + [BlankPage(id)] + images)[|before| := TocPage(id, k, chunk[..j + 1], images, metadata, env)]
  {
    TocPageStep(id, k, chunk, j, images, metadata, env);
    ReplaceWithLine(before, BlankPage(id), images, TocPage(id, k, chunk[..j], images, metadata, env),
                    TocPage(id, k, chunk[..j + 1], images, metadata, env), TocLine(chunk[j], k, metadata, env),
                    j, chunk[j].pageNumber - 1, targetIndex, prev, next);
  }

  /** Drawing a line on the page at `|before|` and linking it to the page
      at `targetIndex`, an image page, replaces that page by `added`. */
  lemma ReplaceWithLine(before: seq<Page>, mid: Page, images: seq<Page>, current: Page, added: Page, line: string,
                        j: nat, p: nat, targetIndex: nat, prev: seq<Page>, next: seq<Page>)
    requires p < |images| && targetIndex == |before| + 1 + p
    requires prev == (before + [mid] + images)[|before| := current]
    requires next == prev[|before| := WithLine(prev[|before|], line, j, prev[targetIndex].id)]
    requires added == WithLine(current, line, j, images[p].id)
    ensures next == (before + [mid] + images)[|before| := added]
  {
    var base := before + [mid] + images;
    UpdatedMiddleIndex(before, mid, current, images, p, targetIndex);
    UpdateTwice(base, |before|, current, added);
  }

  lemma DotsFitSnoc(entries: seq<TocEntry>, j: nat, metadata: PdfMetadata, env: Env)
    requires env.Valid() && j < |entries|
    requires DotsFit(entries[..j], metadata, env) && LeaderFits(entries[j], metadata, env)
    ensures DotsFit(entries[..j + 1], metadata, env)
  {
    var prefix := entries[..j + 1];
    forall i | 0 <= i < |prefix| ensures LeaderFits(prefix[i], metadata, env) {
      if i < j {
        assert prefix[i] == entries[..j][i];
      }
    }
  }

  /** The page holding no entry yet: the header alone, no `/Annots`. */
  lemma TocPageEmpty(id: PageId, k: nat, chunk: seq<TocEntry>, images: seq<Page>, metadata: PdfMetadata, env: Env)
    requires env.Valid() && EntriesInRange(chunk, |images|)
    ensures TocPage(id, k, chunk[..0], images, metadata, env)
      == BlankPage(id).(width := TocWidth, height := TocHeight, content := [] + [HeaderDrawing()])
  {
    assert chunk[..0] == [];
    assert [] + [HeaderDrawing()] == [HeaderDrawing()] + [];
  }

  // Sequence facts proved apart from the string terms of the callers.

  /** Contents page `c + 1` is the page made from chunk `c`. */
  lemma TocPagesAt(entries: seq<TocEntry>, images: seq<Page>, firstId: PageId, metadata: PdfMetadata, env: Env,
                   c: nat, chunk: seq<TocEntry>, id: PageId)
    requires env.Valid() && EntriesInRange(entries, |images|) && c < |TocChunks(entries)|
    requires chunk == TocChunks(entries)[c] && id == firstId + c
    ensures EntriesInRange(chunk, |images|)
    ensures TocPages(entries, images, firstId, metadata, env)[c] == TocPage(id, c + 1, chunk, images, metadata, env)
  {
    AllChunksInRange(entries, |images|);
    TocPagesOfAt(TocChunks(entries), images, firstId, metadata, env, c);
  }

  /** The links of contents page `c + 1` are those of chunk `c`. */
  lemma TocPagesLinks(entries: seq<TocEntry>, images: seq<Page>, firstId: PageId, metadata: PdfMetadata, env: Env,
                      c: nat, chunk: seq<TocEntry>)
    requires env.Valid() && EntriesInRange(entries, |images|) && c < |TocChunks(entries)|
    requires chunk == TocChunks(entries)[c]
    ensures EntriesInRange(chunk, |images|) && chunk != []
    ensures TocPages(entries, images, firstId, metadata, env)[c].annots == Some(EntryLinks(chunk, images))
  {
    TocPagesAt(entries, images, firstId, metadata, env, c, chunk, firstId + c);
  }

  /** One pass of the outer loop of `AddTableOfContents` in terms of the
      result: with contents pages 1 to `c` in front of `images`, inserting
      page `c + 1` at `c` leaves pages 1 to `c + 1` there, and the entries
      checked so far all leave room for their dots. */
  lemma TocStep(entries: seq<TocEntry>, images: seq<Page>, firstId: PageId, metadata: PdfMetadata, env: Env,
                c: nat, chunk: seq<TocEntry>, id: PageId, prev: seq<Page>, next: seq<Page>)
    requires env.Valid() && EntriesInRange(entries, |images|) && c < |TocChunks(entries)|
    requires chunk == TocChunks(entries)[c] && EntriesInRange(chunk, |images|) && id == firstId + c
    requires prev == TocPages(entries, images, firstId, metadata, env)[..c] + images
    requires next == prev[..c] + [TocPage(id, c + 1, chunk, images, metadata, env)] + images
    requires DotsFit(Flatten(TocChunks(entries)[..c]), metadata, env)
    requires DotsFit(TocChunks(entries)[c], metadata, env)
    ensures |next| == c + 1 + |images| && next[c + 1..] == images
    ensures next == TocPages(entries, images, firstId, metadata, env)[..c + 1] + images
    ensures DotsFit(Flatten(TocChunks(entries)[..c + 1]), metadata, env)
  {
    var chunks := TocChunks(entries);
    var done := TocPages(entries, images, firstId, metadata, env);
    TocPagesAt(entries, images, firstId, metadata, env, c, chunk, id);
    ReplacePrefix(done, c, images, TocPage(id, c + 1, chunk, images, metadata, env));
    TakeSnoc(chunks, c);
    FlattenAppend(chunks[..c], chunks[c]);
    DotsFitConcat(Flatten(chunks[..c]), chunks[c], metadata, env);
  }

  /** Replacing the part after `c` pages in front of `images` by one more page. */
  lemma ReplacePrefix<T>(done: seq<T>, c: nat, images: seq<T>, x: T)
    requires c < |done| && done[c] == x
    ensures |done[..c] + images| == c + |images|
    ensures (done[..c] + images)[c..] == images
    ensures (done[..c] + images)[..c] + [x] + images == done[..c + 1] + images
  {
    assert (done[..c] + images)[..c] == done[..c];
    assert done[..c + 1] == done[..c] + [x];
  }

  lemma AppendAssoc<T>(a: seq<T>, b: seq<T>, c: seq<T>)
    ensures a + (b + c) == (a + b) + c
  {
  }

  lemma TakeSnoc<T>(s: seq<T>, j: nat)
    requires j < |s|
    ensures s[..j + 1] == s[..j] + [s[j]]
    ensures s[..j + 1][..j] == s[..j]
  {
  }

  lemma TakeAll<T>(s: seq<T>)
    ensures s[..|s|] == s
  {
  }

  lemma SplitAt<T>(s: seq<T>, i: nat)
    requires i <= |s|
    ensures s == s[..i] + s[i..]
  {
  }

  lemma UpdateTwice<T>(s: seq<T>, i: nat, x: T, y: T)
    requires i < |s|
    ensures s[i := x][i := y] == s[i := y]
  {
  }

  lemma UpdatedMiddleIndex<T>(before: seq<T>, x: T, y: T, after: seq<T>, i: nat, t: int)
    requires i < |after| && t == |before| + 1 + i
    ensures 0 <= t < |before| + 1 + |after|
    ensures (before + [x] + after)[|before| := y][t] == after[i]
  {
  }

  lemma UpdateMiddle<T>(before: seq<T>, x: T, y: T, after: seq<T>)
    ensures (before + [x] + after)[|before|] == x
    ensures (before + [x] + after)[|before| := y] == before + [y] + after
  {
  }

  /** The page after drawing `text` as line `j` and linking it to `target`. */
  function WithLine(page: Page, text: string, j: nat, target: PageId): Page
  {
    var drawn := page.(content := page.content + [DrawText(text, 40.0, EntryY(j), true)]);
    drawn.(annots := Some(drawn.annots.GetOr([]) + [Link(LinkRect(j), target)]))
  }

  /** Adding line `j` and its link turns the page holding `chunk[..j]` into
      the page holding `chunk[..j + 1]`. */
  lemma TocPageStep(id: PageId, k: nat, chunk: seq<TocEntry>, j: nat, images: seq<Page>, metadata: PdfMetadata, env: Env)
    requires env.Valid() && j < |chunk| && EntriesInRange(chunk, |images|)
    ensures 1 <= chunk[j].pageNumber <= |images|
    ensures EntriesInRange(chunk[..j], |images|) && EntriesInRange(chunk[..j + 1], |images|)
    ensures TocPage(id, k, chunk[..j + 1], images, metadata, env)
      == WithLine(TocPage(id, k, chunk[..j], images, metadata, env), TocLine(chunk[j], k, metadata, env), j,
                  images[chunk[j].pageNumber - 1].id)
  {
    PrefixInRange(chunk, |images|, j);
    PrefixInRange(chunk, |images|, j + 1);
    TocContentStep(k, chunk, j, metadata, env);
    TocAnnotsStep(chunk, j, images);
  }

  lemma TocContentStep(k: nat, chunk: seq<TocEntry>, j: nat, metadata: PdfMetadata, env: Env)
    requires env.Valid() && j < |chunk|
    ensures TocContent(k, chunk[..j + 1], metadata, env)
         == TocContent(k, chunk[..j], metadata, env) + [DrawText(TocLine(chunk[j], k, metadata, env), 40.0, EntryY(j), true)]
  {
    var lines := TocLines(chunk[..j], k, metadata, env);
    var line := TocLine(chunk[j], k, metadata, env);
    TocLinesAppend(chunk, j, k, metadata, env);
    LineDrawingsAppend(lines, line);
    AppendAssoc([HeaderDrawing()], LineDrawings(lines), [DrawText(line, 40.0, EntryY(j), true)]);
  }

  lemma TocAnnotsStep(chunk: seq<TocEntry>, j: nat, images: seq<Page>)
    requires j < |chunk| && EntriesInRange(chunk, |images|)
    requires EntriesInRange(chunk[..j], |images|) && EntriesInRange(chunk[..j + 1], |images|)
    ensures 1 <= chunk[j].pageNumber <= |images|
    ensures TocAnnots(chunk[..j + 1], images)
         == Some(TocAnnots(chunk[..j], images).GetOr([]) + [Link(LinkRect(j), images[chunk[j].pageNumber - 1].id)])
  {
    EntryLinksAppend(chunk, j, images);
    if j == 0 {
      assert chunk[..j] == [];
    } else {
      assert chunk[..j] != [];
    }
  }

  lemma TocLinesAppend(chunk: seq<TocEntry>, j: nat, k: nat, metadata: PdfMetadata, env: Env)
    requires env.Valid() && j < |chunk|
    ensures TocLines(chunk[..j + 1], k, metadata, env) == TocLines(chunk[..j], k, metadata, env) + [TocLine(chunk[j], k, metadata, env)]
  {
    MapSeqAppend(chunk, j, LineOf(k, metadata, env));
  }

  lemma LineDrawingsAppend(lines: seq<string>, line: string)
    ensures LineDrawings(lines + [line]) == LineDrawings(lines) + [DrawText(line, 40.0, EntryY(|lines|), true)]
  {
    var longer := LineDrawings(lines + [line]);
    var shorter := LineDrawings(lines);
    forall i | 0 <= i < |lines| ensures longer[i] == shorter[i] {
      assert (lines + [line])[i] == lines[i];
    }
  }

  lemma EntryLinksAppend(chunk: seq<TocEntry>, j: nat, images: seq<Page>)
    requires j < |chunk| && EntriesInRange(chunk, |images|)
    requires EntriesInRange(chunk[..j], |images|) && EntriesInRange(chunk[..j + 1], |images|)
    ensures EntryLinks(chunk[..j + 1], images)
      == EntryLinks(chunk[..j], images) + [Link(LinkRect(j), images[chunk[j].pageNumber - 1].id)]
  {
    var longer := EntryLinks(chunk[..j + 1], images);
    var shorter := EntryLinks(chunk[..j], images);
    forall i | 0 <= i < j ensures longer[i] == shorter[i] {
      assert chunk[..j + 1][i] == chunk[..j][i];
    }
    assert chunk[..j + 1][j] == chunk[j];
  }

  lemma DotsFitConcat(a: seq<TocEntry>, b: seq<TocEntry>, metadata: PdfMetadata, env: Env)
    requires env.Valid()
    ensures DotsFit(a + b, metadata, env) <==> DotsFit(a, metadata, env) && DotsFit(b, metadata, env)
  {
    if DotsFit(a, metadata, env) && DotsFit(b, metadata, env) {
      forall i | 0 <= i < |a + b| ensures LeaderFits((a + b)[i], metadata, env) {
        if i >= |a| {
          assert (a + b)[i] == b[i - |a|];
        } else {
          assert (a + b)[i] == a[i];
        }
      }
    }
    if DotsFit(a + b, metadata, env) {
      forall i | 0 <= i < |a| ensures LeaderFits(a[i], metadata, env) {
        assert (a + b)[i] == a[i];
      }
      forall i | 0 <= i < |b| ensures LeaderFits(b[i], metadata, env) {
        assert (a + b)[|a| + i] == b[i];
      }
    }
  }

  lemma FailedChunkIsListed(entries: seq<TocEntry>, c: nat, metadata: PdfMetadata, env: Env)
    requires env.Valid() && c < |TocChunks(entries)|
    requires !DotsFit(TocChunks(entries)[c], metadata, env)
    ensures !DotsFit(entries, metadata, env)
  {
    var chunk := TocChunks(entries)[c];
    var j :| 0 <= j < |chunk| && !LeaderFits(chunk[j], metadata, env);
    ChunkMember(entries, c, j);
  }

  lemma AllChunksListed(entries: seq<TocEntry>, metadata: PdfMetadata, env: Env)
    requires env.Valid()
    requires DotsFit(Flatten(TocChunks(entries)), metadata, env)
    ensures DotsFit(entries, metadata, env)
  {
    var sorted := OrderedEntries(entries);
    assert Flatten(TocChunks(entries)) == sorted;
    forall i | 0 <= i < |entries| ensures LeaderFits(entries[i], metadata, env) {
      EntryOrdered(entries, i);
    }
  }

  // ----- What the contents pages hold -----

  /** There is one contents page per 50 entries, rounded up, and none for
      an empty list. */
  lemma TocPageCount(entries: seq<TocEntry>, images: seq<Page>, firstId: PageId, metadata: PdfMetadata, env: Env)
    requires env.Valid() && EntriesInRange(entries, |images|)
    ensures |TocPages(entries, images, firstId, metadata, env)| == (|entries| + 49) / 50
    ensures entries == [] <==> TocPages(entries, images, firstId, metadata, env) == []
  {
    CeilDiv50(|OrderedEntries(entries)|);
  }

  /** Entry `j` of contents page `c + 1` is entry `50 c + j` of the entries
      ordered by page number. */
  lemma TocEntryOrder(entries: seq<TocEntry>, c: nat, j: nat)
    requires c < |TocChunks(entries)| && j < |TocChunks(entries)[c]|
    ensures 50 * c + j < |entries|
    ensures TocChunks(entries)[c][j] == OrderedEntries(entries)[50 * c + j]
  {
    var sorted := OrderedEntries(entries);
    ChunkAt(sorted, MaxEntriesPerPage, c, j);
  }

  /** Entry `j` of contents page `c + 1` is drawn as line `1 + j`, after the
      header, at y = 60 + 15 j from the top, with the page number k = c + 1
      printed after its dot leader. */
  lemma TocEntryLine(entries: seq<TocEntry>, images: seq<Page>, firstId: PageId, metadata: PdfMetadata, env: Env,
                     c: nat, j: nat)
    requires env.Valid() && EntriesInRange(entries, |images|)
    requires c < |TocChunks(entries)| && j < |TocChunks(entries)[c]|
    ensures TocPages(entries, images, firstId, metadata, env)[c].id == firstId + c
    ensures |TocPages(entries, images, firstId, metadata, env)[c].content| == 1 + |TocChunks(entries)[c]|
    ensures TocPages(entries, images, firstId, metadata, env)[c].content[0] == DrawText(Header, 0.0, 40.0, true)
    ensures TocPages(entries, images, firstId, metadata, env)[c].content[1 + j]
         == DrawText(TocLine(TocChunks(entries)[c][j], c + 1, metadata, env), 40.0, 60.0 + 15.0 * j as real, true)
  {
    var chunk := TocChunks(entries)[c];
    TocPagesAt(entries, images, firstId, metadata, env, c, chunk, firstId + c);
    TocPageLine(firstId + c, c + 1, chunk, images, metadata, env, j);
  }

  /** The `j`-th link of contents page `c + 1` belongs to entry `j`: it covers
      that entry's line and points at the page object of image page p. */
  lemma TocEntryLink(entries: seq<TocEntry>, images: seq<Page>, firstId: PageId, metadata: PdfMetadata, env: Env,
                     c: nat, j: nat)
    requires env.Valid() && EntriesInRange(entries, |images|)
    requires c < |TocChunks(entries)| && j < |TocChunks(entries)[c]|
    ensures var e := TocChunks(entries)[c][j];
      var page := TocPages(entries, images, firstId, metadata, env)[c];
      && 1 <= e.pageNumber <= |images|
      && page.annots.Some? && |page.annots.value| == |TocChunks(entries)[c]|
      && page.annots.value[j] == Link(LinkRect(j), images[e.pageNumber - 1].id)
  {
    var chunk := TocChunks(entries)[c];
    TocPagesLinks(entries, images, firstId, metadata, env, c, chunk);
    EntryLinkAt(chunk, images, j);
  }

  lemma EntryLinkAt(chunk: seq<TocEntry>, images: seq<Page>, j: nat)
    requires EntriesInRange(chunk, |images|) && j < |chunk|
    ensures 1 <= chunk[j].pageNumber <= |images|
    ensures |EntryLinks(chunk, images)| == |chunk|
    ensures EntryLinks(chunk, images)[j] == Link(LinkRect(j), images[chunk[j].pageNumber - 1].id)
  {
  }

  /** In `toc + images`, image page `p` is page `n = |toc| + p` (1-based); a
      link to its page object is resolved there. */
  lemma LinkTargetAt(toc: seq<Page>, images: seq<Page>, c: nat, j: nat, p: int, n: int)
    requires c < |toc| && toc[c].annots.Some? && j < |toc[c].annots.value|
    requires 1 <= p <= |images| && toc[c].annots.value[j].target == images[p - 1].id
    requires n == |toc| + p
    ensures var final := toc + images;
      && 1 <= n <= |final|
      && final[n - 1] == images[p - 1]
      && final[n - 1].id == toc[c].annots.value[j].target
  {
  }

  lemma TocPageLine(id: PageId, k: nat, chunk: seq<TocEntry>, images: seq<Page>, metadata: PdfMetadata, env: Env, j: nat)
    requires env.Valid() && EntriesInRange(chunk, |images|) && j < |chunk|
    ensures var page := TocPage(id, k, chunk, images, metadata, env);
      && page.id == id
      && |page.content| == 1 + |chunk|
      && page.content[0] == DrawText(Header, 0.0, 40.0, true)
      && page.content[1 + j] == DrawText(TocLine(chunk[j], k, metadata, env), 40.0, 60.0 + 15.0 * j as real, true)
  {
  }

  /** After the insertion the contents pages stand in front of the image
      pages, so the link of an entry with page number p resolves to the page
      at index T + p - 1, where T is the number of contents pages. */
  lemma TocLinkResolves(entries: seq<TocEntry>, images: seq<Page>, firstId: PageId, metadata: PdfMetadata, env: Env,
                        c: nat, j: nat)
    requires env.Valid() && EntriesInRange(entries, |images|)
    requires c < |TocChunks(entries)| && j < |TocChunks(entries)[c]|
    ensures var e := TocChunks(entries)[c][j];
      var toc := TocPages(entries, images, firstId, metadata, env);
      var final := toc + images;
      && 1 <= e.pageNumber <= |images|
      && toc[c].annots.Some? && j < |toc[c].annots.value|
      && toc[c].annots.value[j].target == final[|toc| + e.pageNumber - 1].id
  {
    var toc := TocPages(entries, images, firstId, metadata, env);
    var p := TocChunks(entries)[c][j].pageNumber;
    TocEntryLink(entries, images, firstId, metadata, env, c, j);
    LinkTargetAt(toc, images, c, j, p, |toc| + p);
  }

  // ----- The printed page number, as written and as intended -----

  /** As written, the number printed for an entry on contents page k is
      p + k; the page it names is at 1-based position T + p of the finished
      document. The two agree only on the last contents page. */
  lemma PrintedNumberLags(entries: seq<TocEntry>, images: seq<Page>, firstId: PageId, metadata: PdfMetadata, env: Env,
                          c: nat, j: nat)
    requires env.Valid() && EntriesInRange(entries, |images|)
    requires c < |TocChunks(entries)| && j < |TocChunks(entries)[c]|
    ensures var e := TocChunks(entries)[c][j];
      var t := |TocPages(entries, images, firstId, metadata, env)|;
      && PrintedNumber(e, c + 1) <= t + e.pageNumber
      && (PrintedNumber(e, c + 1) == t + e.pageNumber <==> c == t - 1)
  {
  }

  /** With 51 entries there are two contents pages; the entry for image page
      1 is on the first and prints 2, but image page 1 is the third page. */
  lemma PrintedNumberExample(images: seq<Page>, firstId: PageId, metadata: PdfMetadata, env: Env)
    requires env.Valid() && |images| == 51
    ensures var entries := seq(51, i => TocEntry("img", i + 1));
      && EntriesInRange(entries, |images|)
      && |TocPages(entries, images, firstId, metadata, env)| == 2
      && TocChunks(entries)[0][0] == TocEntry("img", 1)
      && PrintedNumber(TocChunks(entries)[0][0], 1) == 2
  {
    var entries := seq(51, i => TocEntry("img", i + 1));
    assert SortedBy(entries, PageNumberOf, IntLeq);
    SortBySortedIsIdentity(entries, PageNumberOf, IntLeq);
    TocPageCount(entries, images, firstId, metadata, env);
    ChunkAt(OrderedEntries(entries), 50, 0, 0);
  }

  /** The number evidently intended: the entry's 1-based position in the
      finished document, p plus the number of contents pages. */
  function IntendedNumber(e: TocEntry, tocPageCount: nat): int
  {
    e.pageNumber + tocPageCount
  }

  /** The intended number names exactly the page the entry links to. */
  lemma IntendedNumberIsLinkTarget(entries: seq<TocEntry>, images: seq<Page>, firstId: PageId, metadata: PdfMetadata, env: Env,
                                   c: nat, j: nat)
    requires env.Valid() && EntriesInRange(entries, |images|)
    requires c < |TocChunks(entries)| && j < |TocChunks(entries)[c]|
    ensures var e := TocChunks(entries)[c][j];
      var toc := TocPages(entries, images, firstId, metadata, env);
      var final := toc + images;
      var n := IntendedNumber(e, |toc|);
      && 1 <= e.pageNumber <= |images|
      && 1 <= n <= |final|
      && toc[c].annots.Some? && j < |toc[c].annots.value|
      && final[n - 1].id == toc[c].annots.value[j].target
      && final[n - 1] == images[e.pageNumber - 1]
  {
    var toc := TocPages(entries, images, firstId, metadata, env);
    var e := TocChunks(entries)[c][j];
    TocEntryLink(entries, images, firstId, metadata, env, c, j);
    LinkTargetAt(toc, images, c, j, e.pageNumber, IntendedNumber(e, |toc|));
  }
}
