/**
 * The rotate screen (src/screens/RotatePdfScreen.js): every page of the picked
 * document is turned by the chosen angle, which is added to the page's current
 * rotation without reduction modulo 360.
 */
module RotatePdf {
  import opened Wrappers
  import opened Limits
  import opened Documents
  import ProContext

  /** The angles of `rotationOptions`, in display order. */
  function RotationOptions(): (options: seq<int>)
    ensures |options| == 3
    ensures forall k | 0 <= k < |options| :: 0 < options[k] < 360 && options[k] % 90 == 0
    ensures forall k, l | 0 <= k < l < |options| :: options[k] < options[l]
  {
    [90, 180, 270]
  }

  /** The page after `page.setRotation(degrees(currentRotation + rotationAngle))`. */
  function RotatedPage(p: Page, angle: int): (r: Page)
    ensures r.content == p.content && r.width == p.width && r.height == p.height
    ensures r.rotation - p.rotation == angle
  {
    p.(rotation := p.rotation + angle)
  }

  /** `pages.forEach(...)`: every page turned by the same angle. */
  function Rotated(doc: Document, angle: int): (r: Document)
    ensures |r| == |doc| && forall k | 0 <= k < |doc| :: r[k] == RotatedPage(doc[k], angle)
  {
    seq(|doc|, k requires 0 <= k < |doc| => RotatedPage(doc[k], angle))
  }

  /** Rotating twice is rotating once by the sum of the angles. */
  lemma RotatedTwice(doc: Document, a: int, b: int)
    ensures Rotated(Rotated(doc, a), b) == Rotated(doc, a + b)
  {}

  /** Rotating by 0 changes nothing. */
  lemma RotatedByZero(doc: Document)
    ensures Rotated(doc, 0) == doc
  {
    assert forall k | 0 <= k < |doc| :: RotatedPage(doc[k], 0) == doc[k];
  }

  /** Any offered angle keeps every rotation a multiple of 90 (the form pdf-lib accepts). */
  lemma RotatedRightAngles(doc: Document, angle: int)
    requires angle in RotationOptions()
    requires forall k | 0 <= k < |doc| :: doc[k].rotation % 90 == 0
    ensures forall k | 0 <= k < |doc| :: Rotated(doc, angle)[k].rotation % 90 == 0
  {}

  /** Four quarter turns, or two half turns, bring each page back to the same
      orientation modulo 360, though the stored angle has grown by 360. */
  lemma FullTurn(doc: Document)
    ensures Rotated(Rotated(Rotated(Rotated(doc, 90), 90), 90), 90) == Rotated(doc, 360)
    ensures Rotated(Rotated(doc, 180), 180) == Rotated(doc, 360)
    ensures forall k | 0 <= k < |doc| :: Rotated(doc, 360)[k].rotation % 360 == doc[k].rotation % 360
  {
    RotatedTwice(doc, 90, 90);
    RotatedTwice(Rotated(doc, 180), 90, 90);
    RotatedTwice(doc, 180, 180);
  }

  /** The in-place `forEach` over pdf-lib's page objects. */
  method RotateAll(pages: array<Page>, angle: int)
    modifies pages
    ensures pages[..] == Rotated(old(pages[..]), angle)
  {
    var k := 0;
    while k < pages.Length
      invariant 0 <= k <= pages.Length
      invariant forall j | 0 <= j < k :: pages[j] == RotatedPage(old(pages[j]), angle)
      invariant forall j | k <= j < pages.Length :: pages[j] == old(pages[j])
    {
      pages[k] := RotatedPage(pages[k], angle);
      k := k + 1;
    }
  }

  class RotatePdfScreen {
    var selectedPdf: Option<Document>
    var pageCount: nat
    var rotationAngle: int

    /** The page count belongs to the loaded document, and the angle is one of the options. */
    ghost predicate Valid()
      reads this
    {
      && (selectedPdf.Some? ==> pageCount == |selectedPdf.value|)
      && (selectedPdf.None? ==> pageCount == 0)
      && rotationAngle in RotationOptions()
    }

    constructor ()
      ensures Valid() && selectedPdf == None && pageCount == 0 && rotationAngle == 90
    {
      selectedPdf := None;
      pageCount := 0;
      rotationAngle := 90;
    }

    /** `loadPdfInfo`: `loaded` is the parsed file, or None when reading or parsing failed. */
    method LoadPdfInfo(loaded: Option<Document>)
      requires Valid()
      modifies this
      ensures Valid() && rotationAngle == old(rotationAngle)
      ensures loaded.Some? ==> selectedPdf == loaded && pageCount == |loaded.value|
      ensures loaded.None? ==> selectedPdf == old(selectedPdf) && pageCount == old(pageCount)
    {
      if loaded.Some? {
        selectedPdf := loaded;
        pageCount := |loaded.value|;
      }
    }

    /** `setRotationAngle(option.angle)` for the option at `option`. */
    method SetRotationAngle(option: nat)
      requires Valid() && option < |RotationOptions()|
      modifies this
      ensures Valid() && rotationAngle == RotationOptions()[option]
      ensures selectedPdf == old(selectedPdf) && pageCount == old(pageCount)
    {
      rotationAngle := RotationOptions()[option];
    }

    /** `rotatePdf()`: `readOk` is the re-read and parse of the file, `writeOk` the
        save and write, `usageWriteOk` the usage persistence, `shareOk` the share step. */
    method RotatePdf(ledger: ProContext.ProProvider, readOk: bool, writeOk: bool, usageWriteOk: bool, shareOk: bool)
      returns (outcome: Outcome)
      requires Valid()
      modifies ledger
      ensures Valid()
      ensures selectedPdf.None? ==> outcome == Refused(NoPdfSelected)
      ensures selectedPdf.Some? && !old(ledger.Allowed(Feature.RotatePdf)) ==> outcome == Refused(DailyLimit)
      ensures selectedPdf.Some? && !old(ledger.isPro)
              && old(ledger.usage.undefinedSlot) in {ProContext.Undefined, ProContext.NaN} ==>
                outcome == Refused(DailyLimit)
      ensures var written := selectedPdf.Some? && old(ledger.Allowed(Feature.RotatePdf)) && readOk && writeOk;
              && (outcome.Done? <==> written && shareOk)
              && (outcome.Done? ==> outcome.doc == Rotated(selectedPdf.value, rotationAngle))
              && (ledger.usage == if written && !old(ledger.isPro) && usageWriteOk
                                  then ProContext.IncrementedUsage(old(ledger.usage), Feature.RotatePdf)
                                  else old(ledger.usage))
              && (ledger.storedUsage ==
                    if written && !old(ledger.isPro) && usageWriteOk
                    then Some(ProContext.Persisted(ProContext.IncrementedUsage(old(ledger.usage), Feature.RotatePdf)))
                    else old(ledger.storedUsage))
      ensures ledger.isPro == old(ledger.isPro) && ledger.storedPro == old(ledger.storedPro)
      ensures ledger.isLoaded == old(ledger.isLoaded)
      ensures old(ledger.StraySlotUnset()) ==> ledger.StraySlotUnset()
    {
      if selectedPdf.None? {
        return Refused(NoPdfSelected);
      }
      if !ledger.isPro && ledger.usage.undefinedSlot in {ProContext.Undefined, ProContext.NaN} {
        ProContext.FreeUnmappedFeature(ledger.usage, Feature.RotatePdf);
      }
      if !ledger.Allowed(Feature.RotatePdf) {
        return Refused(DailyLimit);
      }
      if !readOk {
        return Failed;
      }
      var source := selectedPdf.value;
      var pages := new Page[|source|](k requires 0 <= k < |source| => source[k]);
      assert pages[..] == source;
      RotateAll(pages, rotationAngle);
      var rotated := pages[..];
      if !writeOk {
        return Failed;
      }
      ledger.IncrementUsage(Feature.RotatePdf, usageWriteOk);
      if !shareOk {
        return Failed;
      }
      outcome := Done(rotated);
    }

    /** `reset()`. */
    method Reset()
      modifies this
      ensures Valid() && selectedPdf == None && pageCount == 0 && rotationAngle == 90
    {
      selectedPdf := None;
      pageCount := 0;
      rotationAngle := 90;
    }
  }
}
