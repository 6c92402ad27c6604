/** The part of a PDF document the generator manipulates: an ordered list of
    pages with their size, drawing operations, `/Title`, `/Description` and
    `/Annots` entries, plus the document information fields. */
module PdfDocumentModel {
  import opened Wrappers

  /** Identity of a page object; a link annotation refers to a page object,
      not to a position, so it is recorded by identity. */
  type PageId = nat

  datatype Rect = Rect(x: real, y: real, width: real, height: real)

  datatype Drawing =
    | DrawImage(box: Rect)
    | FillRect(box: Rect)
    | DrawText(text: string, x: real, y: real, visible: bool)

  /** A `/Link` annotation whose `/Dest` is the page `target`. */
  datatype Link = Link(rect: Rect, target: PageId)

  datatype Page = Page(
    id: PageId,
    width: real,
    height: real,
    title: Option<string>,
    description: Option<string>,
    content: seq<Drawing>,
    annots: Option<seq<Link>>)

  /** A freshly created page: A4 in points, nothing drawn, no entries. */
  function BlankPage(id: PageId): Page
  {
    Page(id, 595.0, 842.0, None, None, [], None)
  }

  datatype DocumentInfo = DocumentInfo(
    title: Option<string>,
    author: Option<string>,
    keywords: Option<string>,
    subject: Option<string>,
    licenseType: Option<string>)

  ghost predicate DistinctIds(pages: seq<Page>)
  {
    forall i, j :: 0 <= i < j < |pages| ==> pages[i].id != pages[j].id
  }

  class PdfDocument {
    var pages: seq<Page>
    var nextId: PageId
    var info: DocumentInfo

    /** Every page object has its own identity, below the next one handed out. */
    ghost predicate Valid()
      reads this
    {
      && (forall i :: 0 <= i < |pages| ==> pages[i].id < nextId)
      && DistinctIds(pages)
    }

    constructor ()
      ensures Valid() && pages == [] && nextId == 0
      ensures info == DocumentInfo(None, None, None, None, None)
    {
      pages := [];
      nextId := 0;
      info := DocumentInfo(None, None, None, None, None);
    }

    /** `AddPage()`: appends a new page and returns its index. */
    method AddPage() returns (index: nat)
      requires Valid()
      modifies this
      ensures Valid() && info == old(info)
      ensures pages == old(pages) + [BlankPage(old(nextId))] && nextId == old(nextId) + 1
      ensures index == |old(pages)|
    {
      index := |pages|;
      pages := pages + [BlankPage(nextId)];
      nextId := nextId + 1;
    }

    /** `InsertPage(index)`: a new page at `index`, the later ones shifted up. */
    method InsertPage(index: nat)
      requires Valid() && index <= |pages|
      modifies this
      ensures Valid() && info == old(info)
      ensures pages == old(pages)[..index] + [BlankPage(old(nextId))] + old(pages)[index..]
      ensures nextId == old(nextId) + 1
    {
      pages := pages[..index] + [BlankPage(nextId)] + pages[index..];
      nextId := nextId + 1;
    }

    /** Stores the updated state of the page object at `index`. */
    method UpdatePage(index: nat, page: Page)
      requires Valid() && index < |pages| && page.id == pages[index].id
      modifies this
      ensures Valid() && info == old(info) && nextId == old(nextId)
      ensures pages == old(pages)[index := page]
    {
      pages := pages[index := page];
    }

    method SetInfo(newInfo: DocumentInfo)
      requires Valid()
      modifies this
      ensures Valid() && pages == old(pages) && nextId == old(nextId) && info == newInfo
    {
      info := newInfo;
    }
  }
}
