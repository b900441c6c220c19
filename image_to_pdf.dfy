/**
 * The image-to-PDF screen (src/screens/ImageToPdfScreen.js): an ordered list of
 * image URIs, capped for free users, turned into one page per image.
 */
module ImageToPdf {
  import opened Wrappers
  import opened Limits
  import opened Documents
  import ListEdits
  import ProContext

  /** `maxImages`, which the picker receives as `selectionLimit: maxImages - images.length`. */
  function MaxImages(isPro: bool): (m: nat)
    ensures isPro ==> m == ProCap
    ensures !isPro ==> m == FreeLimit(ImagesToPdf)
    ensures 0 < FreeLimit(ImagesToPdf) <= m
  {
    if isPro then ProCap else FreeLimit(ImagesToPdf)
  }

  /** The list `pickImages` stores after the picker returns `newImages`: the old
      images followed by the new ones, cut to the free limit for a free user. */
  function AddedImages(images: seq<string>, newImages: seq<string>, isPro: bool): (r: seq<string>)
    ensures r <= images + newImages
    ensures isPro ==> r == images + newImages
    ensures !isPro ==> |r| == if |images + newImages| > FreeLimit(ImagesToPdf) then FreeLimit(ImagesToPdf) else |images + newImages|
  {
    var total := images + newImages;
    if !isPro && |total| > FreeLimit(ImagesToPdf) then total[..FreeLimit(ImagesToPdf)] else total
  }

  /** A free user's list within the limit keeps every image it had, in order. */
  lemma AddedKeepsOld(images: seq<string>, newImages: seq<string>, isPro: bool)
    requires isPro || |images| <= FreeLimit(ImagesToPdf)
    ensures images <= AddedImages(images, newImages, isPro)
  {}

  /** ASCII upper case to lower case, other characters unchanged. */
  function LowerChar(c: char): char
  {
    if 'A' <= c <= 'Z' then (c as int + 32) as char else c
  }

  /** `toLowerCase()` on the ASCII range. */
  function Lowered(s: string): (r: string)
    ensures |r| == |s| && forall k | 0 <= k < |s| :: r[k] == LowerChar(s[k])
  {
    seq(|s|, k requires 0 <= k < |s| => LowerChar(s[k]))
  }

  /** `s.includes(t)`. */
  function Includes(s: string, t: string): bool
  {
    if |t| > |s| then false
    else if s[..|t|] == t then true
    else Includes(s[1..], t)
  }

  /** t occurs in s starting at offset i. */
  ghost predicate OccursAt(s: string, t: string, i: int)
  {
    0 <= i <= |s| - |t| && s[i..i + |t|] == t
  }

  /** `Includes` answers whether t occurs somewhere in s. */
  lemma {:induction false} IncludesAt(s: string, t: string)
    ensures Includes(s, t) <==> exists i :: OccursAt(s, t, i)
  {
    if |t| <= |s| && s[..|t|] != t {
      IncludesAt(s[1..], t);
      if exists i :: OccursAt(s, t, i) {
        var i :| OccursAt(s, t, i);
        assert i != 0;
        assert s[1..][i - 1..i - 1 + |t|] == t;
        assert OccursAt(s[1..], t, i - 1);
      }
      if Includes(s[1..], t) {
        var i :| OccursAt(s[1..], t, i);
        assert s[i + 1..i + 1 + |t|] == t;
        assert OccursAt(s, t, i + 1);
      }
    } else if |t| <= |s| {
      assert OccursAt(s, t, 0);
    } else {
      assert forall i :: !OccursAt(s, t, i);
    }
  }

  /** The type test of `convertToPdf`: `.png` or `png` anywhere in the lower-cased URI. */
  function IsPng(uri: string): (png: bool)
    ensures png <==> Includes(Lowered(uri), "png")
  {
    var lowerUri := Lowered(uri);
    DotPngHasPng(lowerUri);
    Includes(lowerUri, ".png") || Includes(lowerUri, "png")
  }

  /** A string that contains ".png" contains "png". */
  lemma DotPngHasPng(s: string)
    ensures Includes(s, ".png") ==> Includes(s, "png")
  {
    IncludesAt(s, ".png");
    IncludesAt(s, "png");
    if Includes(s, ".png") {
      var i :| OccursAt(s, ".png", i);
      assert s[i + 1..i + 4] == s[i..i + 4][1..];
      assert OccursAt(s, "png", i + 1);
    }
  }

  /** The `.png` test adds nothing: the URI is embedded as PNG exactly when its
      lower-cased form contains "png" anywhere (a directory name included). */
  lemma IsPngContainsPng(uri: string)
    ensures IsPng(uri) <==> exists i :: OccursAt(Lowered(uri), "png", i)
  {
    IncludesAt(Lowered(uri), "png");
  }

  /** An embedded image's pixel size as pdf-lib reports it. */
  datatype Size = Size(width: int, height: int)

  /** `addPage([image.width, image.height])` then `drawImage` at the origin with the
      image's own size. */
  function ImagePage(uri: string, size: Size): (p: Page)
    ensures p.content.DrawnImage? && p.content.uri == uri
    ensures p.content.format == (if IsPng(uri) then Png else Jpeg)
    ensures p.content.x == 0 && p.content.y == 0 && p.rotation == 0
    ensures p.width == p.content.width == size.width && p.height == p.content.height == size.height
  {
    Page(DrawnImage(uri, if IsPng(uri) then Png else Jpeg, 0, 0, size.width, size.height), size.width, size.height, 0)
  }

  /** The document `convertToPdf`'s loop builds: one page per image, in list order;
      None when reading or embedding some image throws. */
  function ImagePages(images: seq<string>, embedded: seq<Option<Size>>): (r: Option<Document>)
    requires |embedded| == |images|
    ensures r.Some? <==> forall k | 0 <= k < |images| :: embedded[k].Some?
    ensures r.Some? ==> |r.value| == |images|
    ensures r.Some? ==> forall k | 0 <= k < |images| ::
              && r.value[k].content.DrawnImage? && r.value[k].content.uri == images[k]
              && r.value[k].width == embedded[k].value.width && r.value[k].height == embedded[k].value.height
    ensures r.Some? ==> forall k | 0 <= k < |images| :: r.value[k] == ImagePage(images[k], embedded[k].value)
  {
    if forall k | 0 <= k < |images| :: embedded[k].Some? then
      Some(seq(|images|, k requires 0 <= k < |images| => ImagePage(images[k], embedded[k].value)))
    else None
  }

  /** The loop of `convertToPdf`: `embedded[k]` is image k's size once read and
      embedded, None when that throws. */
  method BuildPages(images: seq<string>, embedded: seq<Option<Size>>) returns (doc: Option<Document>)
    requires |embedded| == |images|
    ensures doc == ImagePages(images, embedded)
  {
    var pages: Document := [];
    var k := 0;
    while k < |images|
      invariant 0 <= k <= |images|
      invariant forall j | 0 <= j < k :: embedded[j].Some?
      invariant |pages| == k && forall j | 0 <= j < k :: pages[j] == ImagePage(images[j], embedded[j].value)
    {
      if embedded[k].None? {
        return None;
      }
      pages := pages + [ImagePage(images[k], embedded[k].value)];
      k := k + 1;
    }
    assert pages == seq(|images|, j requires 0 <= j < |images| => ImagePage(images[j], embedded[j].value));
    doc := Some(pages);
  }

  class ImageToPdfScreen {
    var images: seq<string>

    constructor ()
      ensures images == []
    {
      images := [];
    }

    /** `pickImages()`: `picked` is the URIs of the chosen assets, None when the
        permission is refused, the picker is cancelled or it throws. */
    method PickImages(isPro: bool, picked: Option<seq<string>>)
      modifies this
      ensures picked.None? ==> images == old(images)
      ensures picked.Some? ==> images == AddedImages(old(images), picked.value, isPro)
      ensures !isPro ==> picked.None? || |images| <= FreeLimit(ImagesToPdf)
    {
      if picked.Some? {
        images := AddedImages(images, picked.value, isPro);
      }
    }

    /** `removeImage(index)`. */
    method RemoveImage(index: int)
      modifies this
      ensures images == ListEdits.RemoveAt(old(images), index)
    {
      images := ListEdits.RemoveAt(images, index);
    }

    /** `convertToPdf()`: `embedded` gives each image's read-and-embed outcome,
        `writeOk` the save and write, `usageWriteOk` the usage persistence and
        `shareOk` the share step. */
    method ConvertToPdf(ledger: ProContext.ProProvider, embedded: seq<Option<Size>>,
                        writeOk: bool, usageWriteOk: bool, shareOk: bool)
      returns (outcome: Outcome)
      requires |embedded| == |images|
      modifies this, ledger
      ensures |old(images)| == 0 ==> outcome == Refused(NoImages)
      ensures |old(images)| > 0 && !old(ledger.Allowed(Feature.ImagesToPdf)) ==> outcome == Refused(DailyLimit)
      ensures var written := |old(images)| > 0 && old(ledger.Allowed(Feature.ImagesToPdf))
                             && ImagePages(old(images), embedded).Some? && writeOk;
              && (outcome.Done? <==> written && shareOk)
              && (outcome.Done? ==> outcome.doc == ImagePages(old(images), embedded).value)
              && (ledger.usage == if written && !old(ledger.isPro) && usageWriteOk
                                  then ProContext.IncrementedUsage(old(ledger.usage), Feature.ImagesToPdf)
                                  else old(ledger.usage))
              && (ledger.storedUsage ==
                    if written && !old(ledger.isPro) && usageWriteOk
                    then Some(ProContext.Persisted(ProContext.IncrementedUsage(old(ledger.usage), Feature.ImagesToPdf)))
                    else old(ledger.storedUsage))
      ensures images == if outcome.Done? then [] else old(images)
      ensures ledger.isPro == old(ledger.isPro) && ledger.storedPro == old(ledger.storedPro)
      ensures ledger.isLoaded == old(ledger.isLoaded)
      ensures old(ledger.StraySlotUnset()) ==> ledger.StraySlotUnset()
    {
      if |images| == 0 {
        return Refused(NoImages);
      }
      if !ledger.Allowed(Feature.ImagesToPdf) {
        return Refused(DailyLimit);
      }
      var doc := BuildPages(images, embedded);
      if doc.None? || !writeOk {
        return Failed;
      }
      ledger.IncrementUsage(Feature.ImagesToPdf, usageWriteOk);
      if !shareOk {
        return Failed;
      }
      images := [];
      outcome := Done(doc.value);
    }
  }
}
