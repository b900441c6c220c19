/**
 * The merge screen (src/screens/MergePdfScreen.js): an ordered list of picked
 * files, capped for free users, that is concatenated page by page in list order.
 */
module MergePdf {
  import opened Wrappers
  import opened Limits
  import opened Documents
  import ListEdits
  import ProContext

  /** A picked file as the screen lists it. */
  datatype PdfFile = PdfFile(uri: string, name: string)

  /** One entry of the picker's `assets`; "" stands for a missing field. */
  datatype Asset = Asset(uri: string, name: string)

  /** What `DocumentPicker.getDocumentAsync` resolves to; "" stands for a missing field. */
  datatype PickerResult = PickerResult(kind: string, uri: string, name: string, assets: seq<Asset>)

  /** `maxPdfs`. */
  function MaxPdfs(isPro: bool): (m: nat)
    ensures isPro ==> m == ProCap
    ensures !isPro ==> m == FreeLimit(MergePdfs)
    ensures 0 < FreeLimit(MergePdfs) <= m
  {
    if isPro then ProCap else FreeLimit(MergePdfs)
  }

  /** The file `pickPdf` appends for a picker result, if any: a "success" result
      needs a URI (its own or its first asset's) and is named after the result, its
      first asset or "picked.pdf"; any other result with an asset takes the asset as is. */
  function PickedFile(result: PickerResult): (r: Option<PdfFile>)
    ensures result.kind == "success" && r.Some? ==> r.value.uri != "" && r.value.name != ""
    ensures result.kind == "success" && result.uri != "" ==> r.Some? && r.value.uri == result.uri
    ensures result.kind == "success" ==>
              (r.Some? <==> result.uri != "" || (|result.assets| > 0 && result.assets[0].uri != ""))
    ensures result.kind == "success" && result.uri == "" && r.Some? ==> r.value.uri == result.assets[0].uri
    ensures result.kind == "success" && r.Some? ==>
              r.value.name == if result.name != "" then result.name
                              else if |result.assets| > 0 && result.assets[0].name != "" then result.assets[0].name
                              else "picked.pdf"
    ensures result.kind != "success" ==> (r.Some? <==> |result.assets| > 0)
    ensures result.kind != "success" && |result.assets| > 0 ==>
              r == Some(PdfFile(result.assets[0].uri, result.assets[0].name))
  {
    var first := if |result.assets| > 0 then Some(result.assets[0]) else None;
    if result.kind == "success" then
      var uri := if result.uri != "" then result.uri else if first.Some? then first.value.uri else "";
      var name :=
        if result.name != "" then result.name
        else if first.Some? && first.value.name != "" then first.value.name
        else "picked.pdf";
      if uri != "" then Some(PdfFile(uri, name)) else None
    else if first.Some? then Some(PdfFile(first.value.uri, first.value.name))
    else None
  }

  /** The document built by `mergePdfs`'s loop: every page of every file, in list
      order; None as soon as one file cannot be read or parsed. */
  function Joined(loaded: seq<Option<Document>>): (r: Option<Document>)
    ensures r.Some? <==> forall i | 0 <= i < |loaded| :: loaded[i].Some?
  {
    if loaded == [] then Some([])
    else
      var front := Joined(loaded[..|loaded| - 1]);
      var last := loaded[|loaded| - 1];
      if front.Some? && last.Some? then Some(front.value + last.value) else None
  }

  /** Merging a list in two parts is merging the parts and concatenating them. */
  lemma {:induction false} JoinedAppend(a: seq<Option<Document>>, b: seq<Option<Document>>)
    ensures Joined(a + b).Some? <==> Joined(a).Some? && Joined(b).Some?
    ensures Joined(a + b).Some? ==> Joined(a + b).value == Joined(a).value + Joined(b).value
    decreases |b|
  {
    if b != [] {
      var b' := b[..|b| - 1];
      assert (a + b)[..|a + b| - 1] == a + b';
      JoinedAppend(a, b');
    } else {
      assert a + b == a;
    }
  }

  /** The page count of the merged document is the sum of the files' page counts. */
  function PageTotal(loaded: seq<Option<Document>>): nat
  {
    if loaded == [] then 0
    else PageTotal(loaded[..|loaded| - 1]) + (if loaded[|loaded| - 1].Some? then |loaded[|loaded| - 1].value| else 0)
  }

  lemma {:induction false} JoinedPageTotal(loaded: seq<Option<Document>>)
    ensures Joined(loaded).Some? ==> |Joined(loaded).value| == PageTotal(loaded)
  {
    if loaded != [] {
      JoinedPageTotal(loaded[..|loaded| - 1]);
    }
  }

  /** `for (const pdf of pdfs) { ... copyPages(pdfDoc, pdfDoc.getPageIndices()) ... }`:
      `loaded[i]` is the i-th file read and parsed (None when that throws). */
  method MergeDocuments(loaded: seq<Option<Document>>) returns (merged: Option<Document>)
    ensures merged == Joined(loaded)
  {
    var pages: Document := [];
    var i := 0;
    while i < |loaded|
      invariant 0 <= i <= |loaded|
      invariant Joined(loaded[..i]) == Some(pages)
    {
      if loaded[i].None? {
        assert loaded[..i + 1][..i] == loaded[..i];
        JoinedAppend(loaded[..i + 1], loaded[i + 1..]);
        assert loaded[..i + 1] + loaded[i + 1..] == loaded;
        return None;
      }
      var doc := loaded[i].value;
      var copied := CopyPages(doc, seq(|doc|, k => k));
      assert copied == doc;
      assert loaded[..i + 1][..i] == loaded[..i];
      pages := pages + copied;
      i := i + 1;
    }
    assert loaded[..i] == loaded;
    merged := Some(pages);
  }

  class MergePdfScreen {
    var pdfs: seq<PdfFile>

    constructor ()
      ensures pdfs == []
    {
      pdfs := [];
    }

    /** `pickPdf()`: `picked` is the picker's result, None when it throws. */
    method PickPdf(isPro: bool, picked: Option<PickerResult>) returns (limitReached: bool)
      modifies this
      ensures limitReached <==> |old(pdfs)| >= MaxPdfs(isPro)
      ensures limitReached || picked.None? || PickedFile(picked.value).None? ==> pdfs == old(pdfs)
      ensures !limitReached && picked.Some? && PickedFile(picked.value).Some? ==>
                pdfs == old(pdfs) + [PickedFile(picked.value).value]
      ensures |old(pdfs)| <= MaxPdfs(isPro) ==> |pdfs| <= MaxPdfs(isPro)
    {
      if |pdfs| >= MaxPdfs(isPro) {
        return true;
      }
      limitReached := false;
      if picked.Some? {
        var file := PickedFile(picked.value);
        if file.Some? {
          pdfs := pdfs + [file.value];
        }
      }
    }

    /** `removePdf(index)`. */
    method RemovePdf(index: int)
      modifies this
      ensures pdfs == ListEdits.RemoveAt(old(pdfs), index)
      ensures 0 <= index < |old(pdfs)| ==> multiset(pdfs) + multiset{old(pdfs)[index]} == multiset(old(pdfs))
    {
      if 0 <= index < |pdfs| {
        ListEdits.RemoveAtMultiset(pdfs, index);
      }
      pdfs := ListEdits.RemoveAt(pdfs, index);
    }

    /** `movePdf(index, direction)` for a listed file. */
    method MovePdf(index: int, up: bool)
      requires 0 <= index < |pdfs|
      modifies this
      ensures pdfs == ListEdits.Move(old(pdfs), index, up)
      ensures multiset(pdfs) == multiset(old(pdfs))
    {
      pdfs := ListEdits.Move(pdfs, index, up);
    }

    /** `mergePdfs()`: `loaded` gives each listed file's read outcome; `writeOk` the
        save and write; `usageWriteOk` the usage persistence; `shareOk` the share step
        (an unavailable share sheet is skipped and counts as ok). */
    method MergePdfs(ledger: ProContext.ProProvider, loaded: seq<Option<Document>>,
                     writeOk: bool, usageWriteOk: bool, shareOk: bool)
      returns (outcome: Outcome)
      requires |loaded| == |pdfs|
      modifies this, ledger
      ensures |old(pdfs)| < 2 ==> outcome == Refused(NeedMorePdfs)
      ensures |old(pdfs)| >= 2 && !old(ledger.Allowed(Feature.MergePdfs)) ==> outcome == Refused(DailyLimit)
      ensures var written := |old(pdfs)| >= 2 && old(ledger.Allowed(Feature.MergePdfs)) && Joined(loaded).Some? && writeOk;
              && (outcome.Done? <==> written && shareOk)
              && (outcome.Done? ==> outcome.doc == Joined(loaded).value)
              && (ledger.usage == if written && !old(ledger.isPro) && usageWriteOk
                                  then ProContext.IncrementedUsage(old(ledger.usage), Feature.MergePdfs)
                                  else old(ledger.usage))
              && (ledger.storedUsage ==
                    if written && !old(ledger.isPro) && usageWriteOk
                    then Some(ProContext.Persisted(ProContext.IncrementedUsage(old(ledger.usage), Feature.MergePdfs)))
                    else old(ledger.storedUsage))
      ensures pdfs == if outcome.Done? then [] else old(pdfs)
      ensures ledger.isPro == old(ledger.isPro) && ledger.storedPro == old(ledger.storedPro)
      ensures ledger.isLoaded == old(ledger.isLoaded)
      ensures old(ledger.StraySlotUnset()) ==> ledger.StraySlotUnset()
    {
      if |pdfs| < 2 {
        return Refused(NeedMorePdfs);
      }
      if !ledger.Allowed(Feature.MergePdfs) {
        return Refused(DailyLimit);
      }
      var merged := MergeDocuments(loaded);
      if merged.None? || !writeOk {
        return Failed;
      }
      ledger.IncrementUsage(Feature.MergePdfs, usageWriteOk);
      if !shareOk {
        return Failed;
      }
      pdfs := [];
      outcome := Done(merged.value);
    }
  }
}
