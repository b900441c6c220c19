/**
 * The delete-pages screen (src/screens/DeletePagesScreen.js): a 0-indexed set of
 * pages to delete, capped in size for free users, and the operation that keeps
 * every other page in order.
 */
module DeletePages {
  import opened Wrappers
  import opened Limits
  import opened Documents
  import ProContext

  /** `maxPages`: the selection-size cap. */
  function MaxPages(isPro: bool): (m: nat)
    ensures isPro ==> m == ProCap
    ensures !isPro ==> m == FreeLimit(Feature.DeletePages)
    ensures 0 < FreeLimit(Feature.DeletePages) <= m
  {
    if isPro then ProCap else FreeLimit(Feature.DeletePages)
  }

  /** The set {0, ..., n - 1}. */
  function Range(n: nat): set<int>
  {
    if n == 0 then {} else Range(n - 1) + {n - 1}
  }

  /** Range(n) holds exactly the indices below n. */
  lemma {:induction false} RangeMembers(n: nat)
    ensures forall i :: i in Range(n) <==> 0 <= i < n
  {
    if n > 0 {
      RangeMembers(n - 1);
    }
  }

  lemma {:induction false} RangeSize(n: nat)
    ensures |Range(n)| == n
  {
    if n > 0 {
      RangeSize(n - 1);
      RangeMembers(n - 1);
    }
  }

  /** A shorter range is contained in a longer one. */
  lemma RangeMono(m: nat, n: nat)
    requires m <= n
    ensures Range(m) <= Range(n)
  {
    RangeMembers(m);
    RangeMembers(n);
  }

  /** The selection `selectAll` produces from `selected` for a document of `pageCount` pages. */
  function SelectAllResult(selected: set<int>, pageCount: nat, isPro: bool): (r: set<int>)
    ensures |selected| == pageCount ==> r == {}
    ensures |selected| != pageCount ==>
              forall i :: i in r <==> 0 <= i < pageCount && (isPro || i < FreeLimit(Feature.DeletePages))
  {
    if |selected| == pageCount then {}
    else if !isPro && pageCount > MaxPages(isPro) then RangeMembers(MaxPages(isPro)); Range(MaxPages(isPro))
    else RangeMembers(pageCount); Range(pageCount)
  }

  /** For a free user with a long document, the limited selection is a fixed point:
      pressing "select all" again keeps the first five pages. */
  lemma SelectAllLimitedIdempotent(selected: set<int>, pageCount: nat)
    requires pageCount > MaxPages(false) && |selected| != pageCount
    ensures SelectAllResult(selected, pageCount, false) == Range(MaxPages(false))
    ensures SelectAllResult(SelectAllResult(selected, pageCount, false), pageCount, false) == Range(MaxPages(false))
  {
    RangeSize(MaxPages(false));
  }

  /** Otherwise "select all" toggles between every page and none. */
  lemma SelectAllToggles(selected: set<int>, pageCount: nat, isPro: bool)
    requires isPro || pageCount <= MaxPages(isPro)
    ensures |selected| != pageCount ==> SelectAllResult(selected, pageCount, isPro) == Range(pageCount)
    ensures |selected| != pageCount && pageCount > 0 ==>
      SelectAllResult(SelectAllResult(selected, pageCount, isPro), pageCount, isPro) == {}
    ensures |selected| == pageCount ==> SelectAllResult(selected, pageCount, isPro) == {}
  {
    RangeSize(pageCount);
  }

  /** The pages `deletePages` keeps, built by the loop of the source: every index
      below pageCount that is not selected, in ascending order. */
  method PagesToKeep(pageCount: nat, selected: set<int>) returns (keep: seq<int>)
    ensures forall k, l | 0 <= k < l < |keep| :: keep[k] < keep[l]
    ensures forall i :: i in keep <==> 0 <= i < pageCount && i !in selected
  {
    keep := [];
    var i := 0;
    while i < pageCount
      invariant 0 <= i <= pageCount
      invariant forall k, l | 0 <= k < l < |keep| :: keep[k] < keep[l]
      invariant forall k | 0 <= k < |keep| :: keep[k] < i
      invariant forall j :: j in keep <==> 0 <= j < i && j !in selected
    {
      if i !in selected {
        keep := keep + [i];
      }
      i := i + 1;
    }
  }

  /** A strictly ascending list holds each element once: its length is the size of its set. */
  lemma {:induction false} AscendingCard(s: seq<int>)
    requires forall k, l | 0 <= k < l < |s| :: s[k] < s[l]
    ensures |set i | i in s| == |s|
  {
    if |s| > 0 {
      var rest := s[1..];
      AscendingCard(rest);
      assert (set i | i in s) == (set i | i in rest) + {s[0]};
      assert s[0] !in rest;
    }
  }

  /** The kept pages and the selection partition 0 .. pageCount - 1, so the new
      document has pageCount - |selection| pages. */
  lemma KeepCount(pageCount: nat, selected: set<int>, keep: seq<int>)
    requires selected <= Range(pageCount)
    requires forall k, l | 0 <= k < l < |keep| :: keep[k] < keep[l]
    requires forall i :: i in keep <==> 0 <= i < pageCount && i !in selected
    ensures |keep| == pageCount - |selected|
  {
    AscendingCard(keep);
    RangeMembers(pageCount);
    assert (set i | i in keep) == Range(pageCount) - selected;
    RangeSize(pageCount);
  }

  class DeletePagesScreen {
    var selectedPdf: Option<Document>
    var pageCount: nat
    var selectedPages: set<int>

    /** The page count belongs to the loaded document, and only its pages can be selected. */
    ghost predicate Valid()
      reads this
    {
      && (selectedPdf.Some? ==> pageCount == |selectedPdf.value|)
      && (selectedPdf.None? ==> pageCount == 0)
      && selectedPages <= Range(pageCount)
    }

    constructor ()
      ensures Valid() && selectedPdf == None && pageCount == 0 && selectedPages == {}
    {
      selectedPdf := None;
      pageCount := 0;
      selectedPages := {};
    }

    /** `loadPdfInfo`: `loaded` is the parsed file, or None when reading or parsing failed. */
    method LoadPdfInfo(loaded: Option<Document>)
      requires Valid()
      modifies this
      ensures Valid()
      ensures loaded.Some? ==> selectedPdf == loaded && pageCount == |loaded.value| && selectedPages == {}
      ensures loaded.None? ==> selectedPdf == old(selectedPdf) && pageCount == old(pageCount)
                               && selectedPages == old(selectedPages)
    {
      if loaded.Some? {
        selectedPdf := loaded;
        pageCount := |loaded.value|;
        selectedPages := {};
      }
    }

    /** `togglePage(pageIndex)` for a page of the grid. */
    method TogglePage(isPro: bool, pageIndex: int) returns (limitReached: bool)
      requires Valid() && 0 <= pageIndex < pageCount
      modifies this
      ensures Valid() && selectedPdf == old(selectedPdf) && pageCount == old(pageCount)
      ensures limitReached <==> pageIndex !in old(selectedPages) && !isPro && |old(selectedPages)| >= MaxPages(isPro)
      ensures pageIndex in old(selectedPages) ==> selectedPages == old(selectedPages) - {pageIndex}
      ensures pageIndex !in old(selectedPages) && !limitReached ==> selectedPages == old(selectedPages) + {pageIndex}
      ensures limitReached ==> selectedPages == old(selectedPages)
      ensures !isPro && |old(selectedPages)| <= FreeLimit(Feature.DeletePages) ==> |selectedPages| <= FreeLimit(Feature.DeletePages)
    {
      var newSelected := selectedPages;
      limitReached := false;
      RangeMembers(pageCount);
      if pageIndex in newSelected {
        newSelected := newSelected - {pageIndex};
      } else {
        if !isPro && |newSelected| >= MaxPages(isPro) {
          limitReached := true;
          return;
        }
        newSelected := newSelected + {pageIndex};
      }
      selectedPages := newSelected;
    }

    /** `selectAll()`, filling the new set with the loops of the source. */
    method SelectAll(isPro: bool) returns (limitReached: bool)
      requires Valid()
      modifies this
      ensures Valid() && selectedPdf == old(selectedPdf) && pageCount == old(pageCount)
      ensures selectedPages == SelectAllResult(old(selectedPages), pageCount, isPro)
      ensures limitReached <==> |old(selectedPages)| != pageCount && !isPro && pageCount > MaxPages(isPro)
    {
      limitReached := false;
      if |selectedPages| == pageCount {
        selectedPages := {};
      } else {
        var maxPages := MaxPages(isPro);
        if !isPro && pageCount > maxPages {
          limitReached := true;
          var limited: set<int> := {};
          var i := 0;
          while i < maxPages && i < pageCount
            invariant 0 <= i <= maxPages
            invariant limited == Range(i)
          {
            limited := limited + {i};
            i := i + 1;
          }
          RangeMono(maxPages, pageCount);
          selectedPages := limited;
        } else {
          var all: set<int> := {};
          var i := 0;
          while i < pageCount
            invariant 0 <= i <= pageCount
            invariant all == Range(i)
          {
            all := all + {i};
            i := i + 1;
          }
          selectedPages := all;
        }
      }
    }

    /** `deletePages()`. `readOk`: re-reading and parsing the file succeeds; `writeOk`:
        saving and writing the new file succeeds; `usageWriteOk`: the ledger's write;
        `shareOk`: the share step (an unavailable share sheet is skipped and counts as ok). */
    method DeletePages(ledger: ProContext.ProProvider, readOk: bool, writeOk: bool, usageWriteOk: bool,
                       shareOk: bool)
      returns (outcome: Outcome)
      requires Valid()
      modifies ledger
      ensures Valid()
      ensures selectedPdf.None? ==> outcome == Refused(NoPdfSelected)
      ensures selectedPdf.Some? && |selectedPages| == 0 ==> outcome == Refused(NoSelection)
      ensures selectedPdf.Some? && |selectedPages| != 0 && |selectedPages| == pageCount ==>
                outcome == Refused(WouldDeleteAll)
      ensures selectedPdf.Some? && 0 < |selectedPages| < pageCount && !old(ledger.Allowed(Feature.DeletePages)) ==>
                outcome == Refused(DailyLimit)
      ensures var written := selectedPdf.Some? && 0 < |selectedPages| < pageCount
                             && old(ledger.Allowed(Feature.DeletePages)) && readOk && writeOk;
              && (outcome.Done? <==> written && shareOk)
              && (ledger.usage == if written && !old(ledger.isPro) && usageWriteOk
                                  then ProContext.IncrementedUsage(old(ledger.usage), Feature.DeletePages)
                                  else old(ledger.usage))
              && (ledger.storedUsage ==
                    if written && !old(ledger.isPro) && usageWriteOk
                    then Some(ProContext.Persisted(ProContext.IncrementedUsage(old(ledger.usage), Feature.DeletePages)))
                    else old(ledger.storedUsage))
      ensures outcome.Done? ==>
                && |outcome.doc| == pageCount - |selectedPages|
                && exists keep: seq<int> ::
                     && |keep| == |outcome.doc|
                     && (forall k, l | 0 <= k < l < |keep| :: keep[k] < keep[l])
                     && (forall i :: i in keep <==> 0 <= i < pageCount && i !in selectedPages)
                     && (forall k | 0 <= k < |keep| :: keep[k] in keep && outcome.doc[k] == selectedPdf.value[keep[k]])
      ensures ledger.isPro == old(ledger.isPro) && ledger.storedPro == old(ledger.storedPro)
      ensures ledger.isLoaded == old(ledger.isLoaded)
      ensures old(ledger.StraySlotUnset()) ==> ledger.StraySlotUnset()
    {
      if selectedPdf.None? {
        return Refused(NoPdfSelected);
      }
      if |selectedPages| == 0 {
        return Refused(NoSelection);
      }
      if |selectedPages| == pageCount {
        return Refused(WouldDeleteAll);
      }
      if !ledger.Allowed(Feature.DeletePages) {
        return Refused(DailyLimit);
      }
      if !readOk {
        return Failed;
      }
      var pdfDoc := selectedPdf.value;
      var pagesToKeep := PagesToKeep(pageCount, selectedPages);
      KeepCount(pageCount, selectedPages, pagesToKeep);
      assert forall k | 0 <= k < |pagesToKeep| :: pagesToKeep[k] in pagesToKeep;
      var newPdf := CopyPages(pdfDoc, pagesToKeep);
      if !writeOk {
        return Failed;
      }
      ledger.IncrementUsage(Feature.DeletePages, usageWriteOk);
      if !shareOk {
        return Failed;
      }
      outcome := Done(newPdf);
    }

    /** `reset()`. */
    method Reset()
      modifies this
      ensures Valid() && selectedPdf == None && pageCount == 0 && selectedPages == {}
    {
      selectedPdf := None;
      pageCount := 0;
      selectedPages := {};
    }
  }
}
