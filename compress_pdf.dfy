/**
 * The compress screen (src/screens/CompressPdfScreen.js): the picked file is
 * re-saved with object streams, written as base64, and the sizes before and
 * after are reported with a rounded percentage saved.
 */
module CompressPdf {
  import opened Wrappers
  import opened Limits
  import opened Documents
  import Base64
  import ProContext

  /** A picked file with the size the screen records for it (0 when unknown). */
  datatype PdfInfo = PdfInfo(uri: string, name: string, size: nat)

  /** What the picker returned: the `assets` shape (with the asset's own size, if
      any) or the older `type: 'success'` shape. */
  datatype Picked =
    | AssetPick(uri: string, name: string, assetSize: Option<nat>)
    | LegacyPick(uri: string, name: string)

  /** `x || y` on optional sizes: a missing or zero size is falsy. */
  function OrElse(x: Option<nat>, fallback: nat): (r: nat)
    ensures x.Some? && x.value != 0 ==> r == x.value
    ensures x.None? || x.value == 0 ==> r == fallback
  {
    if x.Some? && x.value != 0 then x.value else fallback
  }

  /** The size `pickPdf` records: `fileInfo.size || asset.size || 0`, or
      `fileInfo.size || 0` for the older shape. */
  function PickedSize(picked: Picked, infoSize: Option<nat>): (size: nat)
    ensures size != 0 ==> (infoSize.Some? && size == infoSize.value)
                          || (picked.AssetPick? && picked.assetSize.Some? && size == picked.assetSize.value)
    ensures infoSize.Some? && infoSize.value != 0 ==> size == infoSize.value
    ensures picked.AssetPick? && (infoSize.None? || infoSize.value == 0) ==> size == OrElse(picked.assetSize, 0)
    ensures picked.LegacyPick? && (infoSize.None? || infoSize.value == 0) ==> size == 0
  {
    match picked
    case AssetPick(_, _, assetSize) => OrElse(infoSize, OrElse(assetSize, 0))
    case LegacyPick(_, _) => OrElse(infoSize, 0)
  }

  /** The record `compressPdf` stores on success. */
  datatype CompressionResult = CompressionResult(
    originalSize: nat, compressedSize: nat, savedBytes: int, savedPercent: int)

  /** `Math.round((savedBytes / originalSize) * 100)` for a positive original size,
      else 0; `Math.round(q)` is the floor of q + 1/2, taken here exactly. */
  function SavedPercent(originalSize: nat, savedBytes: int): (r: int)
    ensures originalSize > 0 ==>
              2 * originalSize * r <= 200 * savedBytes + originalSize < 2 * originalSize * (r + 1)
    ensures originalSize == 0 ==> r == 0
  {
    if originalSize > 0 then (200 * savedBytes + originalSize) / (2 * originalSize) else 0
  }

  /** Multiplying by a non-negative factor keeps the order. */
  lemma MulMono(a: int, x: int, y: int)
    requires a >= 0
    ensures x <= y ==> a * x <= a * y
  {
    if x <= y {
      assert a * y - a * x == a * (y - x);
    }
  }

  /** The screen shows "PDF is already optimized" exactly when less than half a
      percent was saved (including when the file grew). */
  lemma AlreadyOptimized(originalSize: nat, compressedSize: nat)
    requires originalSize > 0
    ensures SavedPercent(originalSize, originalSize - compressedSize) <= 0
            <==> 200 * (originalSize - compressedSize) < originalSize
  {
    var r := SavedPercent(originalSize, originalSize - compressedSize);
    MulMono(2 * originalSize, 1, r);
    MulMono(2 * originalSize, r + 1, 1);
  }

  /** The percentage lies between 0 and 100 when the file did not grow, and is
      negative exactly when it grew by more than half a percent. */
  lemma SavedPercentRange(originalSize: nat, compressedSize: nat)
    requires originalSize > 0
    ensures SavedPercent(originalSize, originalSize - compressedSize) <= 100
    ensures compressedSize <= originalSize ==> 0 <= SavedPercent(originalSize, originalSize - compressedSize)
    ensures SavedPercent(originalSize, originalSize - compressedSize) < 0 <==>
              200 * (compressedSize - originalSize) > originalSize
  {
    var r := SavedPercent(originalSize, originalSize - compressedSize);
    MulMono(2 * originalSize, 101, r);
    MulMono(2 * originalSize, r + 1, 0);
    MulMono(2 * originalSize, 0, r);
  }

  /** `compressedInfo.size || compressedBytes.length`. */
  function CompressedSize(reportedSize: Option<nat>, byteLength: nat): (size: nat)
    ensures reportedSize.Some? && reportedSize.value != 0 ==> size == reportedSize.value
    ensures reportedSize.None? || reportedSize.value == 0 ==> size == byteLength
  {
    OrElse(reportedSize, byteLength)
  }

  /** The record for the given sizes. */
  function ResultOf(originalSize: nat, compressedSize: nat): (r: CompressionResult)
    ensures r.originalSize - r.compressedSize == r.savedBytes
    ensures r.savedPercent == SavedPercent(originalSize, r.savedBytes)
    ensures r.originalSize == originalSize && r.compressedSize == compressedSize
  {
    var savedBytes := originalSize - compressedSize;
    CompressionResult(originalSize, compressedSize, savedBytes, SavedPercent(originalSize, savedBytes))
  }

  /** How `compressPdf` ends; `Compressed` carries the bytes of the written file. */
  datatype CompressOutcome = CompressRefused(why: Refusal) | CompressFailed | Compressed(file: seq<Base64.byte>)

  class CompressPdfScreen {
    var selectedPdf: Option<PdfInfo>
    var compressionResult: Option<CompressionResult>

    constructor ()
      ensures selectedPdf == None && compressionResult == None
    {
      selectedPdf := None;
      compressionResult := None;
    }

    /** `pickPdf()`: `picked` is None when the picker is cancelled or throws;
        `infoSize` is what `getInfoAsync` reports. */
    method PickPdf(picked: Option<Picked>, infoSize: Option<nat>)
      modifies this
      ensures picked.None? ==> selectedPdf == old(selectedPdf) && compressionResult == old(compressionResult)
      ensures picked.Some? ==>
                && selectedPdf == Some(PdfInfo(picked.value.uri, picked.value.name, PickedSize(picked.value, infoSize)))
                && compressionResult == None
    {
      if picked.Some? {
        selectedPdf := Some(PdfInfo(picked.value.uri, picked.value.name, PickedSize(picked.value, infoSize)));
        compressionResult := None;
      }
    }

    /** `compressPdf()`: `readOk` is the read and parse, `compressedBytes` what
        `pdfDoc.save` produces, `writeOk` the write and the size query, `reportedSize`
        the size that query reports, `usageWriteOk` the usage persistence. The file
        is written from the base64 text, which the file system decodes. */
    method CompressPdf(ledger: ProContext.ProProvider, readOk: bool, compressedBytes: seq<Base64.byte>,
                       writeOk: bool, reportedSize: Option<nat>, usageWriteOk: bool)
      returns (outcome: CompressOutcome)
      modifies this, ledger
      ensures selectedPdf == old(selectedPdf)
      ensures selectedPdf.None? ==> outcome == CompressRefused(NoPdfSelected)
      ensures selectedPdf.Some? && !old(ledger.Allowed(Feature.CompressPdf)) ==> outcome == CompressRefused(DailyLimit)
      ensures selectedPdf.Some? && !old(ledger.isPro)
              && old(ledger.usage.undefinedSlot) in {ProContext.Undefined, ProContext.NaN} ==>
                outcome == CompressRefused(DailyLimit)
      ensures outcome.CompressRefused? ==> compressionResult == old(compressionResult)
      ensures var started := selectedPdf.Some? && old(ledger.Allowed(Feature.CompressPdf));
              && (outcome.Compressed? <==> started && readOk && writeOk)
              && (started ==> !outcome.CompressRefused?)
              && (outcome.CompressFailed? ==> compressionResult == None)
              && (outcome.Compressed? ==>
                    && outcome.file == compressedBytes
                    && compressionResult ==
                         Some(ResultOf(selectedPdf.value.size, CompressedSize(reportedSize, |compressedBytes|))))
              && (ledger.usage == if outcome.Compressed? && !old(ledger.isPro) && usageWriteOk
                                  then ProContext.IncrementedUsage(old(ledger.usage), Feature.CompressPdf)
                                  else old(ledger.usage))
              && (ledger.storedUsage ==
                    if outcome.Compressed? && !old(ledger.isPro) && usageWriteOk
                    then Some(ProContext.Persisted(ProContext.IncrementedUsage(old(ledger.usage), Feature.CompressPdf)))
                    else old(ledger.storedUsage))
      ensures ledger.isPro == old(ledger.isPro) && ledger.storedPro == old(ledger.storedPro)
      ensures ledger.isLoaded == old(ledger.isLoaded)
      ensures old(ledger.StraySlotUnset()) ==> ledger.StraySlotUnset()
    {
      if selectedPdf.None? {
        return CompressRefused(NoPdfSelected);
      }
      if !ledger.isPro && ledger.usage.undefinedSlot in {ProContext.Undefined, ProContext.NaN} {
        ProContext.FreeUnmappedFeature(ledger.usage, Feature.CompressPdf);
      }
      if !ledger.Allowed(Feature.CompressPdf) {
        return CompressRefused(DailyLimit);
      }
      compressionResult := None;
      if !readOk {
        return CompressFailed;
      }
      var base64Compressed := Base64.Uint8ArrayToBase64(compressedBytes);
      if !writeOk {
        return CompressFailed;
      }
      Base64.DecodeEncode(compressedBytes);
      var written := Base64.Decode(base64Compressed).value;
      var originalSize := selectedPdf.value.size;
      var compressedSize := CompressedSize(reportedSize, |compressedBytes|);
      compressionResult := Some(ResultOf(originalSize, compressedSize));
      ledger.IncrementUsage(Feature.CompressPdf, usageWriteOk);
      outcome := Compressed(written);
    }

    /** `reset()`. */
    method Reset()
      modifies this
      ensures selectedPdf == None && compressionResult == None
    {
      selectedPdf := None;
      compressionResult := None;
    }
  }
}
