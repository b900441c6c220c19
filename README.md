# PDF converter app: freemium ledger, editing screens and helpers

This project models the logic core of a React Native PDF toolkit app. The app
converts images to PDF, merges, splits, rotates and compresses PDFs, deletes
pages, and renders PDF pages to images through a native module. The model covers:

- **Usage ledger** (`ProProvider`). It keeps a per-day record of feature
  counters and an `isPro` entitlement flag, both persisted in a key-value store.
  `checkLimit` and `getRemainingCount` read the record, `incrementUsage` and
  `setPro` write it, and the load effect resets the record when the day changes.
  Only four features have a counter. COMPRESS_PDF, ROTATE_PDF and DELETE_PAGES
  do not, so `usage[undefined]` is compared against the limit. The model keeps
  this behaviour and proves what it does: a free user is refused those three
  features for as long as the stray slot is `undefined` or `NaN`. No handler
  ever writes that slot: each one checks the limit before it increments, and a
  pro increment returns early. So every handler, the load effect and `setPro`
  keep the slot unset in memory and in storage (`ProProvider.StraySlotUnset`),
  and in the app the refusal is permanent. Only a record that some other writer
  left in storage with `NaN` in the slot would come back as `null` after the
  JSON round trip and let the check pass.
- **Editing screens.** Each screen is a class whose fields are the screen's
  state. Its methods are the screen's handlers:
  - delete pages: a 0-based selection set, capped in size for free users, and
    the ascending keep-list loop;
  - split: a 1-based, ascending, duplicate-free page list, capped by page number
    for free users;
  - merge: a capped list of files, remove and swap-with-neighbour, and the
    concatenation loop;
  - images to PDF: a truncated image list and one page per image, with PNG or
    JPEG chosen from the URI;
  - rotate: the angle options and the in-place rotation loop over an array of
    pages, with no reduction mod 360;
  - compress: the picked size fallbacks and the savings arithmetic.
  - Every handler checks its refusals in the code's order, then the daily limit.
    Reading, writing, sharing and the ledger's storage write are boolean
    outcomes. Usage is incremented only after the output file has been written.
- **`uint8ArrayToBase64`.** This helper is copied into six screens and is
  modelled once, as a loop over the literal 64-character table. Its result is
  proved equal to a functional encoder of section 4 of RFC 4648. Length,
  alphabet and padding are proved about that encoder. A strict RFC 4648 decoder
  is its partner: `Decode(Encode(b)) == Some(b)`, and every string the decoder
  accepts re-encodes to itself.
- **PdfToImage wrapper.** The model covers `ensureFileUri`, the `maxDim`
  defaulting, the Android `file://` strip, and the flattening of the native
  result into a list of `file://` URIs. It also covers the two-argument call,
  the one-argument retry and the rethrow of the first error. The native module,
  `JSON.parse` and the development mock are function parameters.
- **Theme provider.** The model covers `isDark` and `colors` derived from the
  stored theme and the OS colour scheme, and the load and persist-then-update
  handlers.

Four behaviours of the code a reader may not expect, kept as written:

- Rotation adds the angle to the current rotation and never reduces it
  mod 360. `RotatePdf.FullTurn` shows that four quarter turns give 360, not 0.
- `savedPercent` is `Math.round(100 * saved / original)` even when the output
  grew, so it can be negative. The screen shows "already optimized" for every
  value ≤ 0 (`CompressPdf.SavedPercentRange`, `CompressPdf.AlreadyOptimized`).
- The day rollover happens only in the load effect. A session that crosses
  midnight keeps the old day's counters.
- A free user can never compress, rotate or delete pages. Those features have
  no counter, so `checkLimit` compares `undefined < limit`, which is false. No
  handler increments the stray slot, so the refusal never lifts
  (`ProContext.FreeUnmappedFeature` together with the handlers' `StraySlotUnset`
  clause). `ProContext.StraySlotAfterReload` shows the one way out, a `NaN`
  written to storage, which no handler produces.

Modules: `Wrappers` (Option), `Limits` (FREE_LIMITS), `ProContext`,
`Documents` (an abstract page model, shared outcomes and the `copyPages` loop),
`ListEdits` (remove-at and swap-with-neighbour, shared by the merge and image
screens), `Base64`, `DeletePages`, `SplitPdf`, `MergePdf`, `ImageToPdf`,
`RotatePdf`, `CompressPdf`, `PdfToImage` and `ThemeContext`.

## Model

| member | source | states |
|---|---|---|
| ProContext.FeatureToUsageKey | src/context/ProContext.js:18-23 | exactly COMPRESS_PDF, ROTATE_PDF and DELETE_PAGES have no counter key |
| ProContext.DefaultUsage | src/context/ProContext.js:10-16 | a fresh record is dated today, every counter is 0 and the stray `undefined` slot is absent |
| ProContext.IncrementedUsage | src/context/ProContext.js:81-85 | the feature's counter becomes `counter + 1` in JavaScript's sense; every other counter and the date are unchanged |
| ProContext.Reconcile | src/context/ProContext.js:43-52 | a record from another day is replaced by the default record; a same-day record is kept; the result is always dated today |
| ProContext.ProProvider.constructor | src/context/ProContext.js:26-28 | first render: not pro, a default record, not loaded, storage as found; the stray slot is unset unless storage already held a value there |
| ProContext.ProProvider.LoadData | src/context/ProContext.js:31-61 | a stored pro flag is adopted; a stale stored record is reset and the reset persisted, and usage changes only if that write succeeds; a same-day record is adopted; a failed read changes neither; loading always ends loaded; an unset stray slot stays unset |
| ProContext.ProProvider.IncrementUsage | src/context/ProContext.js:78-93 | no effect for pro; otherwise memory and storage both get the incremented record, and only if the write succeeds; incrementing a counted feature keeps the stray slot unset |
| ProContext.ProProvider.SetPro | src/context/ProContext.js:96-103 | the flag and its stored copy change together, and only if the write succeeds; usage, its stored copy and the loaded flag are untouched |
| ProContext.CheckLimit | src/context/ProContext.js:64-68 | pro always passes; for a counted feature a free user passes iff the counter is below FREE_LIMITS; for an uncounted one only a `null` or a numeric stray slot below the limit passes |
| ProContext.GetRemainingCount | src/context/ProContext.js:71-75 | -1 exactly for pro; for a free user a number iff the counter is a number or `null` (NaN otherwise), never negative, and positive iff the check passes |
| ProContext.Persisted | src/context/ProContext.js:86-87 | the JSON round trip keeps the counters and the date, never yields NaN, and is the identity when the stray slot is not NaN |
| ProContext.LoadedUsage | src/context/ProContext.js:43-52 | no record read: usage unchanged; a same-day record: adopted; a stale record: the default record if the reset write succeeds, else unchanged |
| ProContext.ProProvider.Allowed | src/context/ProContext.js:64-75 | `checkLimit` passes iff `getRemainingCount` is -1 or positive |
| ProContext.ProProvider.Remaining | src/context/ProContext.js:71-75 | -1 exactly for pro, otherwise never below 0 |
| ProContext.ProIsUnlimited | src/context/ProContext.js:64-75 | a pro user passes every check and has -1 (unlimited) remaining |
| ProContext.FreeMappedFeature | src/context/ProContext.js:64-75 | for a counted feature a free user passes iff the counter is below FREE_LIMITS, and the remaining count is max(0, limit − counter) |
| ProContext.FreeUnmappedFeature | src/context/ProContext.js:64-75 | while the stray slot is undefined or NaN, a free user is refused COMPRESS_PDF, ROTATE_PDF and DELETE_PAGES, and the remaining count is NaN |
| ProContext.StraySlotInMemory | src/context/ProContext.js:81-85 | in memory, increments keep the stray slot undefined or NaN |
| ProContext.StraySlotAfterReload | src/context/ProContext.js:81-89 | if an increment of an uncounted feature were persisted (no handler makes one, since each checks the limit first) and reloaded the same day, the free check would pass, because the JSON round trip gives `null` |
| ProContext.ReconcileIdempotent | src/context/ProContext.js:43-52 | reconciling twice on the same day equals reconciling once |
| ProContext.ReconcileResets | src/context/ProContext.js:43-52 | a new day zeroes every counter; the same day keeps every counter |
| ProContext.LoadTwiceSameDay | src/context/ProContext.js:43-52 | a second load on the same day, from what the first load stored, leaves usage as the first load left it |
| ProContext.IncrementTimesCounter | src/context/ProContext.js:78-93 | k successful increments raise a counted feature's counter by exactly k and keep the date |
| ProContext.FreeDailyQuota | src/context/ProContext.js:64-68 | from a fresh day a free user passes the check for a counted feature after k uses iff k < FREE_LIMITS |
| Documents.CopyPages | src/screens/DeletePagesScreen.js:168-169 | the new document holds the source pages at the given indices, in that order |
| ListEdits.RemoveAt | src/screens/MergePdfScreen.js:70-72 | an index in range removes exactly that element and keeps the others in order; any other index changes nothing |
| ListEdits.RemoveAtMultiset | src/screens/MergePdfScreen.js:70-72 | the removed element together with the result is the original multiset |
| ListEdits.Move | src/screens/MergePdfScreen.js:74-81 | a neighbour in range is swapped with the element and every other position is kept; a neighbour out of range leaves the list unchanged; the result is always a permutation |
| ListEdits.MoveUpThenDown | src/screens/MergePdfScreen.js:74-81 | moving an element up and then down again restores the list |
| Base64.TableAt | src/screens/CompressPdfScreen.js:73 | the literal table holds the symbol of value k at position k |
| Base64.SextetsOf | src/screens/CompressPdfScreen.js:82-87 | the four 6-bit fields of `(a << 16) \| (b << 8) \| c` are the bit fields of the three bytes |
| Base64.AppendsMakeQuad | src/screens/CompressPdfScreen.js:84-87 | the four appends of one round add the group's quad, with '=' for missing bytes |
| Base64.Uint8ArrayToBase64 | src/screens/CompressPdfScreen.js:72-91 | the loop's result is the encoding of the whole input |
| Base64.QuadShape | src/screens/CompressPdfScreen.js:84-87 | a group of n bytes yields table symbols followed by exactly 3 − n '=' |
| Base64.EncodeLength | src/screens/CompressPdfScreen.js:74-88 | the output has 4·⌈n/3⌉ characters and is empty iff the input is |
| Base64.EncodePadded | src/screens/CompressPdfScreen.js:73-88 | every character is a table symbol or '=', and the '=' are exactly the last (3 − n mod 3) mod 3 characters |
| Base64.PaddingCount | src/screens/CompressPdfScreen.js:86-87 | there is no '=' when n mod 3 = 0, two when n mod 3 = 1 and one when n mod 3 = 2 |
| Base64.QuadDecodes | src/screens/CompressPdfScreen.js:82-87 | the strict decoder turns each group's quad back into its bytes |
| Base64.DecodeEncode | src/screens/CompressPdfScreen.js:72-91 | decoding the output gives back the input bytes |
| Base64.QuadOfDecoded | src/screens/CompressPdfScreen.js:82-87 | every quad the decoder accepts is the encoder's quad for the bytes it yields |
| Base64.EncodeDecode | src/screens/CompressPdfScreen.js:72-91 | every string the decoder accepts is the encoding of what it decodes to, so each byte string has exactly one encoding |
| DeletePages.MaxPages | src/screens/DeletePagesScreen.js:33 | 999 for pro, FREE_LIMITS.DELETE_PAGES for free, so never below the free limit |
| DeletePages.SelectAllResult | src/screens/DeletePagesScreen.js:86-108 | a full selection becomes empty; otherwise the result is exactly the pages below pageCount, and for a free user only those below 5 |
| DeletePages.SelectAllLimitedIdempotent | src/screens/DeletePagesScreen.js:86-108 | for a free user with a long document "select all" gives pages 0–4, and pressing it again keeps them |
| DeletePages.SelectAllToggles | src/screens/DeletePagesScreen.js:86-108 | otherwise "select all" selects every page, and a second press clears the selection; a full selection is cleared |
| DeletePages.PagesToKeep | src/screens/DeletePagesScreen.js:161-166 | the keep-list is strictly ascending and holds exactly the unselected pages |
| DeletePages.KeepCount | src/screens/DeletePagesScreen.js:161-166 | the keep-list has pageCount − \|selection\| entries |
| DeletePages.DeletePagesScreen.constructor | src/screens/DeletePagesScreen.js:27-29 | no document, page count 0, empty selection |
| DeletePages.DeletePagesScreen.LoadPdfInfo | src/screens/DeletePagesScreen.js:54-67 | a loaded file sets the document and page count and clears the selection; a failure changes nothing |
| DeletePages.DeletePagesScreen.TogglePage | src/screens/DeletePagesScreen.js:69-84 | a selected page is removed; an unselected page is added unless a free user already has 5, and then nothing changes; a free selection of at most 5 stays at most 5 |
| DeletePages.DeletePagesScreen.SelectAll | src/screens/DeletePagesScreen.js:86-108 | the loops build the select-all result, and the limit alert fires exactly in the capped case |
| DeletePages.DeletePagesScreen.DeletePages | src/screens/DeletePagesScreen.js:132-203 | refusals for no document, no selection and every page selected, then the daily limit; on success the output has pageCount − \|selection\| pages, taken in ascending order from the unselected ones; usage is incremented once the file is written, even when the share step then fails, and memory and storage get the same record; success needs the share step too; the loaded flag is kept and an unset stray slot stays unset |
| DeletePages.DeletePagesScreen.Reset | src/screens/DeletePagesScreen.js:205-209 | no document, page count 0, empty selection |
| SplitPdf.Without | src/screens/SplitPdfScreen.js:70 | the filter keeps exactly the elements other than the page, each as often as before |
| SplitPdf.WithoutAppend | src/screens/SplitPdfScreen.js:70 | filtering a concatenation concatenates the filtered parts, so the kept elements stay in their order |
| SplitPdf.WithoutAscending | src/screens/SplitPdfScreen.js:70 | filtering keeps the list strictly ascending |
| SplitPdf.SortedInsert | src/screens/SplitPdfScreen.js:72 | append-then-sort adds exactly one copy of the page |
| SplitPdf.SortedInsertMembers | src/screens/SplitPdfScreen.js:72 | the members after append-then-sort are the old ones plus the page |
| SplitPdf.SortedInsertSorted | src/screens/SplitPdfScreen.js:72 | append-then-sort of a sorted list is sorted |
| SplitPdf.SortedInsertAscending | src/screens/SplitPdfScreen.js:72 | adding a new page to an ascending list keeps it strictly ascending |
| SplitPdf.AscendingUnique | src/screens/SplitPdfScreen.js:68-74 | two strictly ascending lists with the same members are equal |
| SplitPdf.Toggled | src/screens/SplitPdfScreen.js:68-74 | the toggled list holds the page iff the old one did not, and every other member is kept |
| SplitPdf.ToggledShape | src/screens/SplitPdfScreen.js:68-74 | a toggle keeps the list strictly ascending and flips exactly the page's membership |
| SplitPdf.ToggleTwice | src/screens/SplitPdfScreen.js:68-74 | toggling the same page twice restores the list |
| SplitPdf.SelectAllCount | src/screens/SplitPdfScreen.js:79 | never more than the document; the whole document for pro; for free at most 5, and all of a document of at most 5 pages |
| SplitPdf.FirstPages | src/screens/SplitPdfScreen.js:80 | `Array.from` gives 1..max in order |
| SplitPdf.PageIndices | src/screens/SplitPdfScreen.js:109 | every selected page number is shifted down by one, in order |
| SplitPdf.PageIndicesAscending | src/screens/SplitPdfScreen.js:109-111 | the 0-based indices are ascending and inside the document |
| SplitPdf.SplitPdfScreen.constructor | src/screens/SplitPdfScreen.js:26-27 | no document, empty selection |
| SplitPdf.SplitPdfScreen.PickPdf | src/screens/SplitPdfScreen.js:32-60 | a picked file replaces the document and clears the selection; cancel or failure changes nothing |
| SplitPdf.SplitPdfScreen.TogglePage | src/screens/SplitPdfScreen.js:62-75 | rejected iff the user is free and the page number is above 5; otherwise the page is toggled; a free selection stays within pages 1–5 |
| SplitPdf.SplitPdfScreen.SelectAll | src/screens/SplitPdfScreen.js:77-81 | no effect without a document; otherwise pages 1..pageCount for pro and 1..min(pageCount, 5) for free |
| SplitPdf.SplitPdfScreen.DeselectAll | src/screens/SplitPdfScreen.js:83-85 | the selection becomes empty |
| SplitPdf.SplitPdfScreen.SplitPdf | src/screens/SplitPdfScreen.js:87-137 | refused without a document or selection, then at the limit; on success output page k is source page selected[k] − 1; usage is incremented once the file is written, even when the share step then fails, and memory and storage get the same record; success needs the share step too; the loaded flag is kept and an unset stray slot stays unset |
| MergePdf.MaxPdfs | src/screens/MergePdfScreen.js:32 | 999 for pro, FREE_LIMITS.MERGE_PDFS for free, so never below the free limit |
| MergePdf.PickedFile | src/screens/MergePdfScreen.js:51-63 | a "success" result gives a file iff it or its first asset has a uri, taking its own uri first, else the asset's; the name is the result's, else the first asset's, else "picked.pdf"; any other result gives a file iff there is an asset, and then it is the first asset as is |
| MergePdf.Joined | src/screens/MergePdfScreen.js:99-120 | the concatenation exists iff every file loaded |
| MergePdf.JoinedAppend | src/screens/MergePdfScreen.js:99-120 | concatenating two lists of files concatenates their pages |
| MergePdf.JoinedPageTotal | src/screens/MergePdfScreen.js:118-119 | the merged document has the sum of the inputs' page counts |
| MergePdf.MergeDocuments | src/screens/MergePdfScreen.js:97-120 | the loop's result is the concatenation: every input's pages in list order, or nothing when some file fails to load |
| MergePdf.MergePdfScreen.constructor | src/screens/MergePdfScreen.js:28 | an empty list |
| MergePdf.MergePdfScreen.PickPdf | src/screens/MergePdfScreen.js:34-68 | the limit is reached iff the list already holds maxPdfs (2 free, 999 pro), and then the list is unchanged; otherwise the picked file is appended; the cap is preserved |
| MergePdf.MergePdfScreen.RemovePdf | src/screens/MergePdfScreen.js:70-72 | exactly element i is removed |
| MergePdf.MergePdfScreen.MovePdf | src/screens/MergePdfScreen.js:74-81 | swap with the neighbour, or no change at either end; always a permutation |
| MergePdf.MergePdfScreen.MergePdfs | src/screens/MergePdfScreen.js:83-155 | refused below 2 files, then at the limit; the output is the concatenation; usage is incremented iff the file was written, and memory and storage get the same record; the loaded flag is kept and an unset stray slot stays unset; the list is cleared exactly on success |
| ImageToPdf.MaxImages | src/screens/ImageToPdfScreen.js:31 | 999 for pro, FREE_LIMITS.IMAGES_TO_PDF for free, so never below the free limit |
| ImageToPdf.AddedImages | src/screens/ImageToPdfScreen.js:48-60 | the new list is a prefix of old ++ picked: all of it for pro, at most the first 5 for free |
| ImageToPdf.AddedKeepsOld | src/screens/ImageToPdfScreen.js:50-57 | images already in the list stay a prefix of it |
| ImageToPdf.Lowered | src/screens/ImageToPdfScreen.js:95 | lower-casing maps each character and keeps the length |
| ImageToPdf.IncludesAt | src/screens/ImageToPdfScreen.js:96 | `includes` holds iff the text occurs at some position |
| ImageToPdf.IsPng | src/screens/ImageToPdfScreen.js:95-96 | the two `includes` tests together hold iff the lower-cased URI contains "png" |
| ImageToPdf.IsPngContainsPng | src/screens/ImageToPdfScreen.js:95-100 | PNG is chosen iff the lower-cased URI contains "png" (the ".png" test adds nothing) |
| ImageToPdf.ImagePage | src/screens/ImageToPdfScreen.js:94-109 | a page is the image's size and shows the whole image at the origin, in the chosen format |
| ImageToPdf.ImagePages | src/screens/ImageToPdfScreen.js:87-110 | a document exists iff every image embeds, and then page k is image k drawn at the origin at that image's size, as PNG iff its lower-cased uri contains "png" |
| ImageToPdf.BuildPages | src/screens/ImageToPdfScreen.js:85-110 | the loop builds that document |
| ImageToPdf.ImageToPdfScreen.constructor | src/screens/ImageToPdfScreen.js:27 | an empty list |
| ImageToPdf.ImageToPdfScreen.PickImages | src/screens/ImageToPdfScreen.js:33-65 | a cancelled pick changes nothing; otherwise the list becomes the truncated concatenation, so a free list holds at most 5 |
| ImageToPdf.ImageToPdfScreen.RemoveImage | src/screens/ImageToPdfScreen.js:67-69 | exactly element i is removed |
| ImageToPdf.ImageToPdfScreen.ConvertToPdf | src/screens/ImageToPdfScreen.js:71-140 | refused with no images, then at the limit; the output has one page per image in order; usage is incremented iff the file was written, and memory and storage get the same record; the loaded flag is kept and an unset stray slot stays unset; the list is cleared exactly on success |
| RotatePdf.RotationOptions | src/screens/RotatePdfScreen.js:33-37 | three angles in increasing order, each a right-angle multiple strictly between 0 and 360 |
| RotatePdf.RotatedPage | src/screens/RotatePdfScreen.js:113-116 | a page keeps its content and size, and its rotation grows by exactly the angle |
| RotatePdf.Rotated | src/screens/RotatePdfScreen.js:112-116 | every page is rotated, and count and order are unchanged |
| RotatePdf.RotatedTwice | src/screens/RotatePdfScreen.js:113-116 | rotating by a and then by b is rotating by a + b |
| RotatePdf.RotatedByZero | src/screens/RotatePdfScreen.js:114-115 | rotating by 0 changes nothing |
| RotatePdf.RotatedRightAngles | src/screens/RotatePdfScreen.js:112-116 | rotating by an option keeps every rotation a multiple of 90 |
| RotatePdf.FullTurn | src/screens/RotatePdfScreen.js:114-115 | four quarter turns, or two half turns, give 360 and not 0; the rotation is unchanged only mod 360 |
| RotatePdf.RotateAll | src/screens/RotatePdfScreen.js:112-116 | the in-place loop leaves the array holding the rotated document |
| RotatePdf.RotatePdfScreen.constructor | src/screens/RotatePdfScreen.js:27-29 | no document, 0 pages, angle 90 |
| RotatePdf.RotatePdfScreen.LoadPdfInfo | src/screens/RotatePdfScreen.js:58-70 | a loaded file sets the document and page count; a failure changes nothing; the angle is kept |
| RotatePdf.RotatePdfScreen.SetRotationAngle | src/screens/RotatePdfScreen.js:33-37 | the angle becomes the chosen option, one of 90, 180 and 270 |
| RotatePdf.RotatePdfScreen.RotatePdf | src/screens/RotatePdfScreen.js:94-150 | refused without a document, then at the limit, which always refuses a free user here; on success every page is rotated by the angle; usage is incremented iff the file was written, and memory and storage get the same record; the loaded flag is kept and an unset stray slot stays unset, so a free user is refused for good |
| RotatePdf.RotatePdfScreen.Reset | src/screens/RotatePdfScreen.js:152-156 | no document, 0 pages, angle 90 |
| CompressPdf.OrElse | src/screens/CompressPdfScreen.js:129 | `x \|\| fallback` takes x unless it is missing or 0 |
| CompressPdf.PickedSize | src/screens/CompressPdfScreen.js:39-55 | the size is the file-info size if non-zero, else the asset size (newer picker only), else 0 |
| CompressPdf.SavedPercent | src/screens/CompressPdfScreen.js:131 | for original > 0 the result is the exact quotient 100·saved/original rounded half up (the floor of that value plus ½); it is 0 for original 0 |
| CompressPdf.AlreadyOptimized | src/screens/CompressPdfScreen.js:272-274 | the "already optimized" text shows iff 200·saved < original |
| CompressPdf.SavedPercentRange | src/screens/CompressPdfScreen.js:130-131 | the percentage is at most 100 and is not negative when the file did not grow; it is negative iff it grew by more than half a percent |
| CompressPdf.CompressedSize | src/screens/CompressPdfScreen.js:129 | the size the file system reports, unless it is missing or 0; then the byte count |
| CompressPdf.ResultOf | src/screens/CompressPdfScreen.js:128-139 | saved bytes = original − compressed, and the percentage is as above |
| CompressPdf.CompressPdfScreen.constructor | src/screens/CompressPdfScreen.js:27-29 | no document, no result |
| CompressPdf.CompressPdfScreen.PickPdf | src/screens/CompressPdfScreen.js:32-61 | a picked file is recorded with its fallback size and the old result is cleared; cancel or failure changes nothing |
| CompressPdf.CompressPdfScreen.CompressPdf | src/screens/CompressPdfScreen.js:93-156 | refused without a document, then at the limit (always for a free user), and a refusal keeps the old result; a started run first clears the result; success writes exactly the saved bytes and records the result with the compressed-size fallback; usage is incremented only after success, and memory and storage get the same record; the loaded flag is kept and an unset stray slot stays unset, so a free user is refused for good |
| CompressPdf.CompressPdfScreen.Reset | src/screens/CompressPdfScreen.js:169-172 | no document, no result |
| PdfToImage.EnsureFileUri | src/native/PdfToImage.js:14-18 | a falsy path gives null; a string keeps a `file://` prefix or gains one; any other truthy value throws (`startsWith` is missing) |
| PdfToImage.EnsureFileUriIdempotent | src/native/PdfToImage.js:14-18 | applying it again to its result changes nothing |
| PdfToImage.RawImages | src/native/PdfToImage.js:36-40 | an array is kept; a string is its parsed list, or a singleton when parsing fails; another truthy value is a singleton; a falsy one gives [] |
| PdfToImage.Normalized | src/native/PdfToImage.js:42 | map-then-filter throws iff some entry throws; otherwise it is no longer than the input and every entry starts with `file://` |
| PdfToImage.NormalizedAppend | src/native/PdfToImage.js:42 | normalising a concatenation concatenates the results, so order is kept |
| PdfToImage.NormalizedFileUris | src/native/PdfToImage.js:42 | a list of `file://` URIs comes back unchanged |
| PdfToImage.Attempt | src/native/PdfToImage.js:33-43 | a rejected native call is an error carrying its message; a resolved one yields only `file://` URIs |
| PdfToImage.MaxDim | src/native/PdfToImage.js:22 | a missing, null, object or non-numeric option gives 0; a number is kept; a decimal digit string gives its value; a boolean gives 1 or 0; an array other than a one-item one gives 0, and a one-item array reads as its number or digit string |
| PdfToImage.AppliedMax | docs/native-snippets/android/PdfToImageModule.kt:51-52 | the size the native side renders at is always positive, and a positive maxDim is kept |
| PdfToImage.NativeArg | src/native/PdfToImage.js:25-29 | on Android the leading `file://` is removed; otherwise the uri is passed as is |
| PdfToImage.NativeArgRoundTrip | src/native/PdfToImage.js:25-29 | re-adding the prefix gives back the original uri unless the remainder itself starts with `file://` |
| PdfToImage.Convert | src/native/PdfToImage.js:21-69 | with neither a native module nor a mock the call throws; the native path yields `file://` URIs or an error |
| PdfToImage.RethrowsFirst | src/native/PdfToImage.js:44-58 | the first call's result is used if it succeeds, then the retry's; if both fail the first error is rethrown |
| ThemeContext.IsDark | src/context/ThemeContext.js:43-45 | under 'system' dark iff the OS scheme is 'dark'; otherwise dark iff the theme is 'dark' |
| ThemeContext.ColorsFor | src/context/ThemeContext.js:48 | the dark palette iff dark |
| ThemeContext.LoadedTheme | src/context/ThemeContext.js:16-30 | a non-empty stored value replaces the theme; an empty value, a missing value or a read error keeps it |
| ThemeContext.SetThenRestart | src/context/ThemeContext.js:16-40 | a theme that was set survives a restart unless it is the empty string, which reads back as 'system' |
| ThemeContext.ThemeProvider.constructor | src/context/ThemeContext.js:12-13 | theme 'system', not loaded |
| ThemeContext.ThemeProvider.LoadTheme | src/context/ThemeContext.js:16-30 | loading sets the loaded theme and always ends loaded |
| ThemeContext.ThemeProvider.SetTheme | src/context/ThemeContext.js:33-40 | the theme and its stored copy change together, and only if the write succeeds |

## Left out

- Rendering, styles, alerts, progress flags (`isProcessing` and the like), and
  the HomeScreen, SettingsScreen, ProBanner, FeatureCard, ThemeToggle,
  AppNavigator and App.js files. They display state and hold no logic the
  model needs.
- pdf-lib: `load`, `save`, `copyPages`, `addPage`, `embedPng`/`embedJpg` and
  `setRotation`. A document is a sequence of pages with content, size and
  rotation. A parse or save is an `Option` or a boolean outcome. An embedded
  image is its size, or `None` when embedding fails. `save()` bytes are a
  parameter.
- The key-value store, the file system, the document and image pickers,
  sharing and `fetch`. Each call is a success/failure parameter or the value it
  returns. The merge screen's two read routes (`file://` read or `fetch`) are
  one per-file load outcome.
- The Base64 text written by the delete, split, merge, images and rotate
  screens. Those screens report the document they saved. Only the compress
  screen's result carries the written bytes (`CompressPdf.CompressPdfScreen.CompressPdf`).
- `formatFileSize`: it uses `Math.log`, `Math.pow` and `toFixed`, which are
  floating point.
- `reportError` and src/utils/LogCollector.js: network and storage plumbing,
  with a random correlation id. Error paths are the `Failed` outcome.
- src/native/PdfToImage.mock.js is not part of this model. The mock is a
  function parameter. src/screens/PdfToImageScreen.js is a placeholder screen
  and is not modelled.
- The native renderers other than their 1200 default: bitmap rendering and
  float scaling.
- Asynchronous interleaving. Each handler runs to completion before the next
  one starts, so effects such as `incrementUsage` writing from a stale
  `usage` snapshot are not modelled.
- `Date.toDateString()`: a date is an opaque string compared for equality.
- The image picker's `selectionLimit`: it is a hint to the picker UI. The
  truncation after the pick is modelled.
- ImageToPdf.Lowered: `toLowerCase` is modelled on ASCII letters only.
- CompressPdf.SavedPercent: rounds the exact quotient. JavaScript computes
  `(saved / original) * 100` in double precision before `Math.round`, so at an
  exact half-percent tie the model can be one above the app. For example, with
  original 40 and compressed 17 the app gives 57 and the model 58.
- PdfToImage.MaxDim: only plain decimal digit strings are converted, whether
  given directly or as the single item of an array.
  JavaScript's `Number` also accepts surrounding white space, a sign, hex and
  fractions, and the model reads those strings as 0. Numbers are integers.
- ProContext.ProProvider.LoadData: a stored pro value is a boolean. Stored
  JSON that is malformed or not a boolean is not modelled.
- DeletePages.DeletePagesScreen.TogglePage: requires an index of the page grid
  (0 ≤ index < pageCount), the only values the screen passes.
- SplitPdf.SplitPdfScreen.TogglePage: requires a loaded document and a page
  number of its grid (1..pageCount), the only values the screen passes.
- MergePdf.MergePdfScreen.MovePdf: requires the index of a listed file. The
  arrows exist only on listed rows.
- RotatePdf.RotatePdfScreen.SetRotationAngle: takes the index of one of the
  three option buttons.
- MergePdf.MergePdfScreen.MergePdfs and ImageToPdf.ImageToPdfScreen.ConvertToPdf:
  the per-file load results and the image sizes are given as one entry per
  listed item.
