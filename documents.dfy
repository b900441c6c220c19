/**
 * The document model shared by the editing screens. A PDF is an abstract
 * sequence of pages; pdf-lib's parsing and serialisation are not modelled, only
 * which pages end up in which order with which rotation and size.
 */
module Documents {

  datatype ImageFormat = Png | Jpeg

  /** What a page shows: a page of some loaded file (opaque), or an embedded image
      drawn at (x, y) with the given size. */
  datatype Content =
    | Original(id: nat)
    | DrawnImage(uri: string, format: ImageFormat, x: int, y: int, width: int, height: int)

  datatype Page = Page(content: Content, width: int, height: int, rotation: int)

  type Document = seq<Page>

  /** Why a screen refuses to start an operation (before any work or usage increment). */
  datatype Refusal =
    | NoPdfSelected     // no document picked
    | NoSelection       // empty page selection
    | WouldDeleteAll    // deleting every page
    | NeedMorePdfs      // merging fewer than two files
    | NoImages          // converting an empty image list
    | DailyLimit        // checkLimit(feature) is false

  /** How one editing operation ends. `Failed` covers every read, parse, write or
      share error, which the screens catch, log and report with a generic message. */
  datatype Outcome = Refused(why: Refusal) | Failed | Done(doc: Document)

  /** `newPdf.copyPages(source, indices)` followed by `forEach(page => newPdf.addPage(page))`. */
  method CopyPages(source: Document, indices: seq<int>) returns (copied: Document)
    requires forall k | 0 <= k < |indices| :: 0 <= indices[k] < |source|
    ensures |copied| == |indices|
    ensures forall k | 0 <= k < |indices| :: copied[k] == source[indices[k]]
  {
    copied := [];
    var k := 0;
    while k < |indices|
      invariant 0 <= k <= |indices|
      invariant |copied| == k
      invariant forall j | 0 <= j < k :: copied[j] == source[indices[j]]
    {
      copied := copied + [source[indices[k]]];
      k := k + 1;
    }
  }
}
